/**
 * Python's `<` on `str`: lexicographic on code points. (Dafny's own `<` on
 * sequences means "proper prefix", so the order is defined here.)
 */
module StrOrder {

  /** `a <= b` on Python strings. */
  predicate LexLe(a: string, b: string)
    decreases |a|
  {
    |a| == 0 || (|b| > 0 && (a[0] < b[0] || (a[0] == b[0] && LexLe(a[1..], b[1..]))))
  }

  /** `a < b` on Python strings. */
  predicate LexLt(a: string, b: string)
  {
    LexLe(a, b) && a != b
  }

  lemma {:induction false} LexLeReflexive(a: string)
    ensures LexLe(a, a)
    decreases |a|
  {
    if |a| > 0 {
      LexLeReflexive(a[1..]);
    }
  }

  lemma {:induction false} LexLeAntisymmetric(a: string, b: string)
    requires LexLe(a, b) && LexLe(b, a)
    ensures a == b
    decreases |a|
  {
    if |a| > 0 {
      LexLeAntisymmetric(a[1..], b[1..]);
      assert a == [a[0]] + a[1..] && b == [b[0]] + b[1..];
    }
  }

  lemma {:induction false} LexLeTransitive(a: string, b: string, c: string)
    requires LexLe(a, b) && LexLe(b, c)
    ensures LexLe(a, c)
    decreases |a|
  {
    if |a| > 0 && a[0] == b[0] && b[0] == c[0] {
      LexLeTransitive(a[1..], b[1..], c[1..]);
    }
  }

  lemma {:induction false} LexLeTotal(a: string, b: string)
    ensures LexLe(a, b) || LexLe(b, a)
    decreases |a|
  {
    if |a| > 0 && |b| > 0 && a[0] == b[0] {
      LexLeTotal(a[1..], b[1..]);
    }
  }

  /** Two strings that share their first character compare as their tails do. */
  lemma SameHeadLt(a: string, b: string)
    requires |a| > 0 && |b| > 0 && a[0] == b[0]
    ensures LexLt(a, b) <==> LexLt(a[1..], b[1..])
  {
    if a[1..] == b[1..] {
      assert a == [a[0]] + a[1..] && b == [b[0]] + b[1..];
    }
  }

  /** Strings that start with different characters compare as those characters do. */
  lemma DifferentHeadLt(a: string, b: string)
    requires |a| > 0 && |b| > 0 && a[0] != b[0]
    ensures LexLt(a, b) <==> a[0] < b[0]
  {
  }
}

/** Python's `sorted`, over keys compared as Python strings. */
module Sorting {
  import opened Text
  import opened StrOrder

  /** Ordered by `key`, allowing equal keys (`sorted(s, key=key)` of a list). */
  ghost predicate SortedBy<T>(s: seq<T>, key: T -> string)
  {
    forall i, j :: 0 <= i < j < |s| ==> LexLe(key(s[i]), key(s[j]))
  }

  /** Strictly increasing by `key` (`sorted` of a set whose keys are distinct). */
  ghost predicate StrictlySortedBy<T>(s: seq<T>, key: T -> string)
  {
    forall i, j :: 0 <= i < j < |s| ==> LexLt(key(s[i]), key(s[j]))
  }

  /** No two elements of `s` share a key. */
  ghost predicate InjectiveOn<T>(s: set<T>, key: T -> string)
  {
    forall x, y :: x in s && y in s && key(x) == key(y) ==> x == y
  }

  /** The identity key: strings sorted as themselves. */
  function Self(s: string): string
  {
    s
  }

  /** The elements of `s` whose key is `k`, in their order in `s`. */
  function WithKey<T>(s: seq<T>, key: T -> string, k: string): seq<T>
  {
    if s == [] then [] else (if key(s[0]) == k then [s[0]] else []) + WithKey(s[1..], key, k)
  }

  /** Puts `x` in front of the first element whose key is not below its own. */
  function Insert<T>(x: T, s: seq<T>, key: T -> string): seq<T>
  {
    if s == [] then
      [x]
    else if LexLe(key(x), key(s[0])) then
      [x] + s
    else
      [s[0]] + Insert(x, s[1..], key)
  }

  /** Insertion adds `x` and keeps every other element. */
  lemma {:induction false} InsertPermutes<T>(x: T, s: seq<T>, key: T -> string)
    ensures multiset(Insert(x, s, key)) == multiset(s) + multiset{x}
  {
    if s != [] && !LexLe(key(x), key(s[0])) {
      InsertPermutes(x, s[1..], key);
      assert s == [s[0]] + s[1..];
    }
  }

  lemma {:induction false} InsertSorted<T>(x: T, s: seq<T>, key: T -> string)
    requires SortedBy(s, key)
    ensures SortedBy(Insert(x, s, key), key)
  {
    if s == [] {
    } else if LexLe(key(x), key(s[0])) {
      forall j | 0 <= j < |s| ensures LexLe(key(x), key(s[j])) {
        if j > 0 { LexLeTransitive(key(x), key(s[0]), key(s[j])); }
      }
      assert ([x] + s)[1..] == s;
    } else {
      var rest := Insert(x, s[1..], key);
      InsertSorted(x, s[1..], key);
      InsertPermutes(x, s[1..], key);
      LexLeTotal(key(x), key(s[0]));
      forall j | 0 <= j < |rest| ensures LexLe(key(s[0]), key(rest[j])) {
        assert rest[j] in multiset(rest);
        if rest[j] != x {
          assert rest[j] in multiset(s[1..]);
          var m :| 0 <= m < |s[1..]| && s[1..][m] == rest[j];
          assert s[m + 1] == rest[j];
        }
      }
      assert ([s[0]] + rest)[1..] == rest;
    }
  }

  /** Filtering a sequence with a first element. */
  lemma WithKeyCons<T>(y: T, r: seq<T>, key: T -> string, k: string)
    ensures WithKey([y] + r, key, k) == (if key(y) == k then [y] else []) + WithKey(r, key, k)
  {
    assert ([y] + r)[0] == y;
    assert ([y] + r)[1..] == r;
  }

  /** Insertion passes over elements whose keys are below `key(x)`, so none of them shares it. */
  lemma {:induction false} InsertWithKey<T>(x: T, s: seq<T>, key: T -> string, k: string)
    ensures WithKey(Insert(x, s, key), key, k)
         == (if key(x) == k then [x] else []) + WithKey(s, key, k)
  {
    if s == [] {
      WithKeyCons(x, [], key, k);
    } else if LexLe(key(x), key(s[0])) {
      WithKeyCons(x, s, key, k);
    } else {
      var rest := Insert(x, s[1..], key);
      var tail := WithKey(s[1..], key, k);
      var hx := if key(x) == k then [x] else [];
      var h0 := if key(s[0]) == k then [s[0]] else [];
      assert h0 == [] || hx == [] by {
        if key(s[0]) == key(x) { LexLeReflexive(key(x)); }
      }
      calc {
        WithKey(Insert(x, s, key), key, k);
      == { assert Insert(x, s, key) == [s[0]] + rest; }
        WithKey([s[0]] + rest, key, k);
      == { WithKeyCons(s[0], rest, key, k); }
        h0 + WithKey(rest, key, k);
      == { InsertWithKey(x, s[1..], key, k); }
        h0 + (hx + tail);
      == { if h0 == [] { assert h0 + (hx + tail) == hx + tail; } else { assert hx + (h0 + tail) == h0 + tail; } }
        hx + (h0 + tail);
      == { WithKeyCons(s[0], s[1..], key, k); assert s == [s[0]] + s[1..]; }
        hx + WithKey(s, key, k);
      }
    }
  }

  /** `sorted(s, key=key)`: an insertion sort, stable like Python's. */
  function SortBy<T>(s: seq<T>, key: T -> string): seq<T>
  {
    if s == [] then [] else Insert(s[0], SortBy(s[1..], key), key)
  }

  /** The sort orders by `key` and permutes `s`. */
  lemma {:induction false} SortBySpec<T>(s: seq<T>, key: T -> string)
    ensures SortedBy(SortBy(s, key), key)
    ensures multiset(SortBy(s, key)) == multiset(s)
    ensures |SortBy(s, key)| == |s|
  {
    if s != [] {
      assert s == [s[0]] + s[1..];
      SortBySpec(s[1..], key);
      InsertSorted(s[0], SortBy(s[1..], key), key);
      InsertPermutes(s[0], SortBy(s[1..], key), key);
    }
  }

  /** The sort is stable: elements with equal keys keep their relative order. */
  lemma {:induction false} SortByStable<T>(s: seq<T>, key: T -> string, k: string)
    ensures WithKey(SortBy(s, key), key, k) == WithKey(s, key, k)
  {
    if s != [] {
      SortByStable(s[1..], key, k);
      InsertWithKey(s[0], SortBy(s[1..], key), key, k);
    }
  }

  /** A finite non-empty set has an element whose key is least. */
  lemma {:induction false} LeastExists<T(!new)>(s: set<T>, key: T -> string)
    requires s != {}
    ensures exists m :: IsLeast(m, s, key)
    decreases s
  {
    var y :| y in s;
    if s == {y} {
      LexLeReflexive(key(y));
      assert IsLeast(y, s, key);
    } else {
      LeastExists(s - {y}, key);
      var m :| IsLeast(m, s - {y}, key);
      LexLeTotal(key(m), key(y));
      if LexLe(key(m), key(y)) {
        assert IsLeast(m, s, key);
      } else {
        forall x | x in s ensures LexLe(key(y), key(x)) {
          if x == y { LexLeReflexive(key(y)); } else { LexLeTransitive(key(y), key(m), key(x)); }
        }
        assert IsLeast(y, s, key);
      }
    }
  }

  /** `m` has the least key in `s`. */
  predicate IsLeast<T(!new)>(m: T, s: set<T>, key: T -> string)
  {
    m in s && forall x :: x in s ==> LexLe(key(m), key(x))
  }

  /** Under distinct keys, the least element is unique. */
  lemma LeastUnique<T(!new)>(s: set<T>, key: T -> string)
    requires InjectiveOn(s, key)
    ensures forall m, n :: IsLeast(m, s, key) && IsLeast(n, s, key) ==> m == n
  {
    forall m, n | IsLeast(m, s, key) && IsLeast(n, s, key) ensures m == n {
      LexLeAntisymmetric(key(m), key(n));
    }
  }

  /** `sorted(s, key=key)` of a set whose elements have distinct keys. */
  function SortSetBy<T(!new)>(s: set<T>, key: T -> string): seq<T>
    requires InjectiveOn(s, key)
    decreases s
  {
    if s == {} then
      []
    else
      LeastExists(s, key);
      LeastUnique(s, key);
      var m :| IsLeast(m, s, key);
      [m] + SortSetBy(s - {m}, key)
  }

  /** The first element of the sorted set is its least element. */
  lemma SortSetByHead<T(!new)>(s: set<T>, key: T -> string) returns (m: T)
    requires InjectiveOn(s, key) && s != {}
    ensures IsLeast(m, s, key)
    ensures SortSetBy(s, key) == [m] + SortSetBy(s - {m}, key)
  {
    LeastExists(s, key);
    LeastUnique(s, key);
    m :| IsLeast(m, s, key);
  }

  /** The sorted set holds exactly the elements of `s`, once each. */
  lemma {:induction false} SortSetByElements<T(!new)>(s: set<T>, key: T -> string)
    requires InjectiveOn(s, key)
    ensures forall x :: x in SortSetBy(s, key) <==> x in s
    ensures |SortSetBy(s, key)| == |s|
    decreases s
  {
    if s != {} {
      var m := SortSetByHead(s, key);
      SortSetByElements(s - {m}, key);
    }
  }

  /** The sorted set is strictly increasing by key. */
  lemma {:induction false} SortSetByStrict<T(!new)>(s: set<T>, key: T -> string)
    requires InjectiveOn(s, key)
    ensures StrictlySortedBy(SortSetBy(s, key), key)
    decreases s
  {
    if s != {} {
      var m := SortSetByHead(s, key);
      var rest := SortSetBy(s - {m}, key);
      var r := [m] + rest;
      SortSetByStrict(s - {m}, key);
      SortSetByElements(s - {m}, key);
      forall i, j | 0 <= i < j < |r| ensures LexLt(key(r[i]), key(r[j])) {
        assert r[j] == rest[j - 1];
        if i == 0 {
          assert rest[j - 1] in s - {m};
        } else {
          assert r[i] == rest[i - 1];
        }
      }
    }
  }

  /** The result is strictly increasing by key and holds exactly the elements of `s`. */
  lemma SortSetBySpec<T(!new)>(s: set<T>, key: T -> string)
    requires InjectiveOn(s, key)
    ensures StrictlySortedBy(SortSetBy(s, key), key)
    ensures forall x :: x in SortSetBy(s, key) <==> x in s
    ensures |SortSetBy(s, key)| == |s|
  {
    SortSetByStrict(s, key);
    SortSetByElements(s, key);
  }

  /** An element occurs at most once in a sequence without repetitions. */
  lemma {:induction false} CountDistinct<T>(s: seq<T>, x: T)
    requires Distinct(s)
    ensures multiset(s)[x] <= 1
  {
    if s != [] {
      assert s == [s[0]] + s[1..];
      CountDistinct(s[1..], x);
      if s[0] == x {
        assert x !in s[1..];
      }
    }
  }

  /** A permutation of a sequence without repetitions has none either. */
  lemma DistinctPermutation<T>(a: seq<T>, b: seq<T>)
    requires multiset(a) == multiset(b)
    requires Distinct(a)
    ensures Distinct(b)
  {
    forall i, j | 0 <= i < j < |b| ensures b[i] != b[j] {
      CountDistinct(a, b[i]);
      RepeatCount(b, i, j);
    }
  }

  /** An element at two positions occurs at least twice. */
  lemma RepeatCount<T>(s: seq<T>, i: nat, j: nat)
    requires i < j < |s|
    ensures s[i] == s[j] ==> multiset(s)[s[i]] >= 2
  {
    assert s == s[..j] + [s[j]] + s[j + 1..];
    assert s[i] in s[..j];
  }
}
