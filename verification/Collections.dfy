/** Option and Result values, and the facts about characters, lists, sets and sums that the rest of the model shares. */
module Collections {

  datatype Option<+T> = None | Some(value: T) {
    function GetOr(default: T): T {
      match this
      case Some(v) => v
      case None => default
    }
  }

  datatype Result<+T, +E> = Ok(value: T) | Err(error: E)

  // ---------- characters ----------

  predicate IsDigit(c: char) {
    '0' <= c <= '9'
  }

  /** The characters that split() and strip() treat as blank. */
  predicate IsSpace(c: char) {
    c == ' ' || '\t' <= c <= '\r'
  }

  lemma CharCodes(c: char)
    ensures IsDigit(c) <==> 48 <= c as int <= 57
    ensures IsSpace(c) <==> c as int == 32 || 9 <= c as int <= 13
  {
  }

  // ---------- lists ----------

  predicate Distinct<T(==)>(s: seq<T>) {
    forall i, j :: 0 <= i < j < |s| ==> s[i] != s[j]
  }

  function Elements<T>(s: seq<T>): set<T> {
    set x | x in s
  }

  lemma ElementsCard<T>(s: seq<T>)
    requires Distinct(s)
    ensures |Elements(s)| == |s|
  {
    if s == [] {
    } else {
      var front, last := s[..|s| - 1], s[|s| - 1];
      ElementsCard(front);
      assert Elements(s) == Elements(front) + {last};
    }
  }

  lemma ElementsAppend<T>(a: seq<T>, b: seq<T>)
    ensures Elements(a + b) == Elements(a) + Elements(b)
  {
  }

  lemma DistinctAppend<T>(a: seq<T>, b: seq<T>)
    requires Distinct(a) && Distinct(b) && Elements(a) !! Elements(b)
    ensures Distinct(a + b) && Elements(a + b) == Elements(a) + Elements(b)
  {
    forall i, j | 0 <= i < j < |a + b| ensures (a + b)[i] != (a + b)[j] {
      if i < |a| <= j {
        assert a[i] in Elements(a) && b[j - |a|] in Elements(b);
      }
    }
  }

  /** The list without the members of `gone`, order kept. */
  function Without<T(==)>(s: seq<T>, gone: set<T>): (r: seq<T>)
  {
    if s == [] then []
    else if s[0] in gone then Without(s[1..], gone)
    else [s[0]] + Without(s[1..], gone)
  }

  lemma WithoutElements<T>(s: seq<T>, gone: set<T>)
    ensures Elements(Without(s, gone)) == Elements(s) - gone
    ensures Distinct(s) ==> Distinct(Without(s, gone))
  {
    if s == [] {
    } else {
      WithoutElements(s[1..], gone);
      assert Elements(s) == {s[0]} + Elements(s[1..]);
      var rest := Without(s[1..], gone);
      if s[0] !in gone {
        assert Elements([s[0]] + rest) == {s[0]} + Elements(rest);
        if Distinct(s) {
          assert forall x :: x in rest ==> x in Elements(rest);
          assert s[0] !in Elements(s[1..]);
        }
      }
    }
  }

  lemma WithoutNone<T>(s: seq<T>)
    ensures Without(s, {}) == s
  {
  }

  lemma WithoutTwice<T>(s: seq<T>, a: set<T>, b: set<T>)
    ensures Without(Without(s, a), b) == Without(s, a + b)
  {
  }

  lemma WithoutSnoc<T>(s: seq<T>, x: T, gone: set<T>)
    ensures Without(s + [x], gone) == Without(s, gone) + if x in gone then [] else [x]
  {
    if s == [] {
    } else {
      WithoutSnoc(s[1..], x, gone);
      assert (s + [x])[1..] == s[1..] + [x];
    }
  }

  /** Python's list.remove, with its ValueError for a missing element ignored. */
  function RemoveFirst<T(==)>(s: seq<T>, x: T): seq<T> {
    if s == [] then []
    else if s[0] == x then s[1..]
    else [s[0]] + RemoveFirst(s[1..], x)
  }

  lemma RemoveFirstDistinct<T>(s: seq<T>, x: T)
    requires Distinct(s)
    ensures RemoveFirst(s, x) == Without(s, {x})
  {
    if s == [] {
    } else if s[0] == x {
      WithoutAbsent(s[1..], {x});
    } else {
      RemoveFirstDistinct(s[1..], x);
    }
  }

  lemma WithoutAbsent<T>(s: seq<T>, gone: set<T>)
    requires forall x :: x in s ==> x !in gone
    ensures Without(s, gone) == s
  {
  }

  /** First occurrences only, order kept. */
  function Unique(s: seq<int>): (r: seq<int>)
    ensures Elements(r) == Elements(s)
    ensures Distinct(r)
    ensures |r| <= |s|
  {
    if s == [] then []
    else
      var front, last := s[..|s| - 1], s[|s| - 1];
      assert Elements(s) == Elements(front) + {last};
      var u := Unique(front);
      assert forall x :: x in u <==> x in Elements(u);
      if last in front then u else
        assert Elements(u + [last]) == Elements(u) + {last};
        u + [last]
  }

  lemma UniqueStep(s: seq<int>, x: int)
    ensures Unique(s + [x]) == if x in Unique(s) then Unique(s) else Unique(s) + [x]
  {
    assert (s + [x])[..|s|] == s;
    assert x in s <==> x in Elements(s);
    assert x in Unique(s) <==> x in Elements(Unique(s));
  }

  lemma UniquePrefix(a: seq<int>, b: seq<int>)
    ensures Unique(a) <= Unique(a + b)
  {
    if b == [] {
      assert a + b == a;
    } else {
      UniquePrefix(a, b[..|b| - 1]);
      assert (a + b)[..|a + b| - 1] == a + b[..|b| - 1];
    }
  }

  // ---------- sorting ----------

  predicate Increasing(s: seq<int>) {
    forall i, j :: 0 <= i < j < |s| ==> s[i] < s[j]
  }

  /** Some member of a set; it lets the verifier see that a nonempty set of integers has one. */
  ghost function Any<T>(s: set<T>): (x: T)
    requires s != {}
    ensures x in s
  {
    var x :| x in s;
    x
  }

  lemma LeastExists(s: set<int>) returns (m: int)
    requires s != {}
    ensures m in s && forall x :: x in s ==> m <= x
  {
    m := Any(s);
    if s != {m} {
      assert s == {m} + (s - {m});
      var n := LeastExists(s - {m});
      assert forall x :: x in s ==> x == m || x in s - {m};
      if n < m {
        m := n;
      }
    }
  }

  lemma SortedCons(m: int, rest: seq<int>)
    requires Increasing(rest)
    requires forall x :: x in Elements(rest) ==> m < x
    ensures Increasing([m] + rest)
    ensures Elements([m] + rest) == {m} + Elements(rest)
  {
    forall j | 0 <= j < |rest| ensures m < rest[j] {
      assert rest[j] in Elements(rest);
    }
  }

  lemma IncreasingUnique(a: seq<int>, b: seq<int>)
    requires Increasing(a) && Increasing(b)
    requires Elements(a) == Elements(b)
    ensures a == b
  {
    ElementsCard(a);
    ElementsCard(b);
    if a != [] {
      assert a[0] in Elements(a) && b[0] in Elements(b);
      assert a[0] in Elements(b) && b[0] in Elements(a);
      assert a[0] == b[0];
      assert Elements(a[1..]) == Elements(a) - {a[0]};
      assert Elements(b[1..]) == Elements(b) - {b[0]};
      IncreasingUnique(a[1..], b[1..]);
    }
  }

  ghost predicate IsSorted(r: seq<int>, s: set<int>) {
    Elements(r) == s && Increasing(r)
  }

  lemma SortedExists(s: set<int>) returns (r: seq<int>)
    ensures IsSorted(r, s)
  {
    if s == {} {
      r := [];
    } else {
      var m := LeastExists(s);
      r := SortedExists(s - {m});
      SortedCons(m, r);
      r := [m] + r;
    }
  }

  lemma SortedUnique(s: set<int>)
    ensures exists r :: IsSorted(r, s)
    ensures forall a, b :: IsSorted(a, s) && IsSorted(b, s) ==> a == b
  {
    var r := SortedExists(s);
    forall a, b | IsSorted(a, s) && IsSorted(b, s) ensures a == b {
      IncreasingUnique(a, b);
    }
  }

  /** What Python's sorted() makes of a set. */
  ghost function Sorted(s: set<int>): (r: seq<int>)
    ensures Elements(r) == s
    ensures Increasing(r)
    ensures |r| == |s|
  {
    SortedUnique(s);
    var r :| IsSorted(r, s);
    ElementsCard(r);
    r
  }

  lemma IncreasingPrefix(s: seq<int>, n: nat)
    requires Increasing(s) && n <= |s|
    ensures Increasing(s[..n]) && Distinct(s[..n]) && Elements(s[..n]) <= Elements(s)
  {
  }

  lemma SubtractCard<T>(a: set<T>, b: set<T>)
    requires b <= a
    ensures |a - b| == |a| - |b|
  {
    assert a == (a - b) + b;
  }

  method SortSet(s: set<int>) returns (r: seq<int>)
    ensures r == Sorted(s)
    ensures forall x :: x in r <==> x in s
  {
    r := [];
    var rest := s;
    while rest != {}
      invariant rest <= s && Increasing(r) && Elements(r) == s - rest
      invariant forall x, y :: x in s - rest && y in rest ==> x < y
    {
      ghost var least := LeastExists(rest);
      var m :| m in rest && forall x :: x in rest ==> m <= x;
      SnocIncreasing(r, m);
      r := r + [m];
      rest := rest - {m};
    }
    IncreasingUnique(r, Sorted(s));
    assert forall x :: x in r <==> x in Elements(r);
  }

  lemma SnocIncreasing(s: seq<int>, x: int)
    requires Increasing(s)
    requires forall y :: y in Elements(s) ==> y < x
    ensures Increasing(s + [x]) && Elements(s + [x]) == Elements(s) + {x}
  {
    forall i | 0 <= i < |s| ensures s[i] < x {
      assert s[i] in Elements(s);
    }
  }

  predicate SortedBy(s: seq<int>, rank: int -> int) {
    forall i, j :: 0 <= i < j < |s| ==> rank(s[i]) <= rank(s[j])
  }

  /** Stable sort of a list by a rank: each element goes after the ones of the same rank before it. */
  function SortBy(s: seq<int>, rank: int -> int): (r: seq<int>)
    ensures SortedBy(r, rank) && multiset(r) == multiset(s) && |r| == |s|
  {
    if s == [] then []
    else
      assert s == s[..|s| - 1] + [s[|s| - 1]];
      InsertBy(SortBy(s[..|s| - 1], rank), s[|s| - 1], rank)
  }

  function InsertBy(s: seq<int>, x: int, rank: int -> int): (r: seq<int>)
    requires SortedBy(s, rank)
    ensures SortedBy(r, rank) && multiset(r) == multiset(s + [x]) && |r| == |s| + 1
  {
    if s == [] || rank(s[|s| - 1]) <= rank(x) then s + [x]
    else
      var front, last := s[..|s| - 1], s[|s| - 1];
      assert s == front + [last];
      var r := InsertBy(front, x, rank);
      InsertBelow(front, last, x, r, rank);
      r + [last]
  }

  lemma InsertBelow(front: seq<int>, last: int, x: int, r: seq<int>, rank: int -> int)
    requires SortedBy(front + [last], rank) && SortedBy(r, rank) && multiset(r) == multiset(front + [x])
    requires rank(x) < rank(last)
    ensures SortedBy(r + [last], rank)
    ensures multiset(r + [last]) == multiset(front + [last] + [x])
  {
    forall i | 0 <= i < |r| ensures rank(r[i]) <= rank(last) {
      assert r[i] in multiset(r);
      if r[i] != x {
        assert r[i] in multiset(front);
        var k :| 0 <= k < |front| && front[k] == r[i];
        assert (front + [last])[k] == r[i] && (front + [last])[|front|] == last;
      }
    }
  }

  /** Among elements of one rank a sort keeps the order. */
  lemma {:induction false} StableSort(s: seq<int>, rank: int -> int, n: int, others: set<int>)
    requires forall x :: x in s ==> (x in others <==> rank(x) != n)
    ensures Without(SortBy(s, rank), others) == Without(s, others)
  {
    if s != [] {
      var front, last := s[..|s| - 1], s[|s| - 1];
      assert s == front + [last];
      assert forall x :: x in front ==> x in s;
      StableSort(front, rank, n, others);
      WithoutSnoc(front, last, others);
      var sorted := SortBy(front, rank);
      SameMembers(sorted, front);
      StableInsert(sorted, last, rank, n, others);
    }
  }

  lemma SameMembers(a: seq<int>, b: seq<int>)
    requires multiset(a) == multiset(b)
    ensures forall x :: x in a <==> x in b
  {
    assert forall x :: x in a <==> x in multiset(a);
    assert forall x :: x in b <==> x in multiset(b);
  }

  lemma {:induction false} StableInsert(s: seq<int>, x: int, rank: int -> int, n: int, others: set<int>)
    requires SortedBy(s, rank) && (x in others <==> rank(x) != n)
    requires forall y :: y in s ==> (y in others <==> rank(y) != n)
    ensures Without(InsertBy(s, x, rank), others) == Without(s, others) + if x in others then [] else [x]
  {
    if s == [] || rank(s[|s| - 1]) <= rank(x) {
      WithoutSnoc(s, x, others);
    } else {
      var front, last := s[..|s| - 1], s[|s| - 1];
      assert s == front + [last];
      assert forall y :: y in front ==> y in s;
      StableInsert(front, x, rank, n, others);
      PassedOver(front, x, last, InsertBy(front, x, rank), others);
    }
  }

  lemma PassedOver(front: seq<int>, x: int, last: int, r: seq<int>, others: set<int>)
    requires Without(r, others) == Without(front, others) + (if x in others then [] else [x])
    requires x in others || last in others
    ensures Without(r + [last], others) == Without(front + [last], others) + if x in others then [] else [x]
  {
    WithoutSnoc(front, last, others);
    WithoutSnoc(r, last, others);
  }

  lemma SameElements(a: seq<int>, b: seq<int>)
    requires multiset(a) == multiset(b)
    ensures Elements(a) == Elements(b)
  {
    assert forall x :: x in a <==> x in multiset(a);
    assert forall x :: x in b <==> x in multiset(b);
  }

  lemma DistinctPermutation(a: seq<int>, b: seq<int>)
    requires Distinct(a) && multiset(a) == multiset(b)
    ensures Distinct(b)
  {
    forall i, j | 0 <= i < j < |b| ensures b[i] != b[j] {
      if b[i] == b[j] {
        assert b == b[..i] + [b[i]] + b[i + 1..j] + [b[j]] + b[j + 1..];
        assert multiset(b)[b[i]] >= 2;
        OnceOnly(a, b[i]);
      }
    }
  }

  lemma OnceOnly(a: seq<int>, x: int)
    requires Distinct(a)
    ensures multiset(a)[x] <= 1
  {
    if a != [] {
      OnceOnly(a[1..], x);
      assert a == [a[0]] + a[1..];
    }
  }

  // ---------- sums ----------

  /** The sum of `weight` over the keys in `ks`. */
  ghost function SumOver<K>(ks: set<K>, weight: map<K, nat>): (r: nat)
    requires ks <= weight.Keys
  {
    if ks == {} then 0
    else
      var k :| k in ks;
      weight[k] + SumOver(ks - {k}, weight)
  }

  lemma {:induction false} SumOverRemove<K>(ks: set<K>, weight: map<K, nat>, k: K)
    requires ks <= weight.Keys && k in ks
    ensures SumOver(ks, weight) == weight[k] + SumOver(ks - {k}, weight)
    decreases |ks|
  {
    var c :| c in ks && SumOver(ks, weight) == weight[c] + SumOver(ks - {c}, weight);
    if c != k {
      SumOverRemove(ks - {c}, weight, k);
      SumOverRemove(ks - {k}, weight, c);
      assert ks - {c} - {k} == ks - {k} - {c};
    }
  }

  lemma {:induction false} SumOverAgree<K>(ks: set<K>, w1: map<K, nat>, w2: map<K, nat>)
    requires ks <= w1.Keys && ks <= w2.Keys
    requires forall k :: k in ks ==> w1[k] == w2[k]
    ensures SumOver(ks, w1) == SumOver(ks, w2)
    decreases |ks|
  {
    if ks != {} {
      var k :| k in ks;
      SumOverRemove(ks, w1, k);
      SumOverRemove(ks, w2, k);
      SumOverAgree(ks - {k}, w1, w2);
    }
  }

  lemma {:induction false} SumOverSubset<K>(a: set<K>, b: set<K>, w: map<K, nat>)
    requires a <= b <= w.Keys
    ensures SumOver(a, w) <= SumOver(b, w)
    decreases |b|
  {
    if b - a == {} {
      assert a == b;
    } else {
      var k := Any(b - a);
      SumOverRemove(b, w, k);
      SumOverSubset(a, b - {k}, w);
    }
  }
}
