/** The string order Rust sorts by, and the sorts built on it. */
module Ordering {

  /** Lexicographic order on strings: what `str::cmp` compares by. */
  predicate Le(a: string, b: string)
  {
    a == [] || (b != [] && (a[0] < b[0] || (a[0] == b[0] && Le(a[1..], b[1..]))))
  }

  lemma {:induction false} LeTotal(a: string, b: string)
    ensures Le(a, b) || Le(b, a)
  {
    if a != [] && b != [] && a[0] == b[0] {
      LeTotal(a[1..], b[1..]);
    }
  }

  lemma {:induction false} LeTransitive(a: string, b: string, c: string)
    requires Le(a, b) && Le(b, c)
    ensures Le(a, c)
  {
    if a != [] && a[0] == b[0] && b[0] == c[0] {
      LeTransitive(a[1..], b[1..], c[1..]);
    }
  }

  lemma {:induction false} LeAntisymmetric(a: string, b: string)
    requires Le(a, b) && Le(b, a)
    ensures a == b
  {
    if a != [] {
      LeAntisymmetric(a[1..], b[1..]);
      assert a == [a[0]] + a[1..] && b == [b[0]] + b[1..];
    }
  }

  ghost predicate SortedBy<T(!new)>(s: seq<T>, key: T -> string)
  {
    forall i, j :: 0 <= i < j < |s| ==> Le(key(s[i]), key(s[j]))
  }

  function Insert<T(!new)>(x: T, s: seq<T>, key: T -> string): (r: seq<T>)
    ensures multiset(r) == multiset(s) + multiset{x}
  {
    if s == [] then
      [x]
    else if Le(key(x), key(s[0])) then
      [x] + s
    else
      assert s == [s[0]] + s[1..];
      [s[0]] + Insert(x, s[1..], key)
  }

  lemma SortedAfter<T(!new)>(x: T, s: seq<T>, key: T -> string)
    requires SortedBy(s, key) && (s != [] ==> Le(key(x), key(s[0])))
    ensures SortedBy([x] + s, key)
  {
    forall i | 0 <= i < |s| ensures Le(key(x), key(s[i])) {
      if i > 0 {
        LeTransitive(key(x), key(s[0]), key(s[i]));
      }
    }
  }

  lemma {:induction false} InsertSorted<T(!new)>(x: T, s: seq<T>, key: T -> string)
    requires SortedBy(s, key)
    ensures SortedBy(Insert(x, s, key), key)
  {
    if s != [] && !Le(key(x), key(s[0])) {
      LeTotal(key(x), key(s[0]));
      var t := Insert(x, s[1..], key);
      InsertSorted(x, s[1..], key);
      assert t[0] in multiset(s[1..]) + multiset{x};
      assert t[0] == x || t[0] in s[1..];
      SortedAfter(s[0], t, key);
    } else {
      SortedAfter(x, s, key);
    }
  }

  /** A stable sort by `key`. */
  function SortOn<T(!new)>(s: seq<T>, key: T -> string): (r: seq<T>)
    ensures SortedBy(r, key)
    ensures multiset(r) == multiset(s)
  {
    if s == [] then [] else
      assert s == [s[0]] + s[1..];
      InsertSorted(s[0], SortOn(s[1..], key), key);
      Insert(s[0], SortOn(s[1..], key), key)
  }

  function Self(s: string): string { s }

  /** `sort_unstable` on strings. */
  function Sort(s: seq<string>): (r: seq<string>)
    ensures SortedBy(r, Self)
    ensures multiset(r) == multiset(s)
  {
    SortOn(s, Self)
  }

  lemma SortedHead<T(!new)>(a: seq<T>, b: seq<T>, key: T -> string)
    requires SortedBy(a, key) && SortedBy(b, key)
    requires a != [] && multiset(a) == multiset(b)
    ensures b != [] && key(a[0]) == key(b[0])
  {
    assert a[0] in multiset(b);
    assert b[0] in multiset(a);
    var i :| 0 <= i < |b| && b[i] == a[0];
    var j :| 0 <= j < |a| && a[j] == b[0];
    LeTotal(key(a[0]), key(b[0]));
    assert Le(key(b[0]), key(b[i])) || i == 0;
    assert Le(key(a[0]), key(a[j])) || j == 0;
    LeAntisymmetric(key(a[0]), key(b[0]));
  }

  /** Equal keys mean equal elements. */
  ghost predicate KeyedBy<T(!new)>(s: seq<T>, key: T -> string)
  {
    forall i, j :: 0 <= i < |s| && 0 <= j < |s| && key(s[i]) == key(s[j]) ==> s[i] == s[j]
  }

  lemma TailOf<T(!new)>(s: seq<T>, key: T -> string)
    requires s != []
    ensures multiset(s[1..]) == multiset(s) - multiset{s[0]}
    ensures SortedBy(s, key) ==> SortedBy(s[1..], key)
    ensures KeyedBy(s, key) ==> KeyedBy(s[1..], key)
  {
    assert s == [s[0]] + s[1..];
  }

  lemma SameHead<T(!new)>(a: seq<T>, b: seq<T>, key: T -> string)
    requires SortedBy(a, key) && SortedBy(b, key)
    requires multiset(a) == multiset(b) && a != []
    requires KeyedBy(a, key)
    ensures b != [] && a[0] == b[0]
  {
    SortedHead(a, b, key);
    assert b[0] in multiset(a);
    var j :| 0 <= j < |a| && a[j] == b[0];
    assert key(a[0]) == key(a[j]);
  }

  lemma TailsAgree<T(!new)>(a: seq<T>, b: seq<T>, key: T -> string)
    requires a != [] && b != [] && a[0] == b[0] && multiset(a) == multiset(b)
    requires SortedBy(a, key) && SortedBy(b, key) && KeyedBy(a, key)
    ensures multiset(a[1..]) == multiset(b[1..])
    ensures SortedBy(a[1..], key) && SortedBy(b[1..], key) && KeyedBy(a[1..], key)
  {
    TailOf(a, key);
    TailOf(b, key);
  }

  /** Sorting forgets the order of its input: when equal keys mean equal
      elements, there is one sorted arrangement. */
  lemma {:induction false} SortedUnique<T(!new)>(a: seq<T>, b: seq<T>, key: T -> string)
    requires SortedBy(a, key) && SortedBy(b, key)
    requires multiset(a) == multiset(b)
    requires KeyedBy(a, key)
    ensures a == b
  {
    if a == [] {
      assert |multiset(b)| == 0;
    } else {
      SameHead(a, b, key);
      TailsAgree(a, b, key);
      SortedUnique(a[1..], b[1..], key);
      assert a == [a[0]] + a[1..] && b == [b[0]] + b[1..];
    }
  }

  lemma Regroup<T>(a: seq<T>, b: seq<T>, c: seq<T>)
    ensures a + (b + c) == (a + b) + c
  {
  }

  /** The elements of `s` as a set. */
  function Elems<T>(s: seq<T>): set<T>
  {
    set x | x in s
  }

  ghost predicate NoDup<T(!new)>(s: seq<T>)
  {
    forall i, j :: 0 <= i < j < |s| ==> s[i] != s[j]
  }

  lemma NoDupConcat<T(!new)>(a: seq<T>, b: seq<T>)
    requires NoDup(a) && NoDup(b) && forall x | x in b :: x !in a
    ensures NoDup(a + b)
  {
    forall i, j | 0 <= i < j < |a + b| ensures (a + b)[i] != (a + b)[j] {
      if i < |a| <= j {
        assert (a + b)[i] in a && (a + b)[j] in b;
      }
    }
  }

  lemma PrefixStep<T(!new)>(s: seq<T>, k: nat)
    requires k < |s|
    ensures Elems(s[..k + 1]) == Elems(s[..k]) + {s[k]}
    ensures NoDup(s) ==> s[k] !in Elems(s[..k])
  {
    assert s[..k + 1] == s[..k] + [s[k]];
  }

  lemma NonEmpty<T(!new)>(s: seq<T>)
    requires s != []
    ensures exists x :: x in s
  {
    assert s[0] in s;
  }

  lemma SameElems<T(!new)>(a: seq<T>, b: seq<T>)
    requires multiset(a) == multiset(b)
    ensures Elems(a) == Elems(b)
    ensures |a| == |b|
    ensures NoDup(a) ==> NoDup(b)
  {
    forall x ensures x in a <==> x in b {
      assert x in a <==> x in multiset(a);
      assert x in b <==> x in multiset(b);
    }
    assert |a| == |multiset(a)| && |b| == |multiset(b)|;
    if NoDup(a) && !NoDup(b) {
      NoDupCounts(a);
      CountsNoDup(b);
    }
  }

  lemma {:induction false} NoDupCounts<T(!new)>(s: seq<T>)
    requires NoDup(s)
    ensures forall x :: multiset(s)[x] <= 1
  {
    if s != [] {
      NoDupCounts(s[1..]);
      assert s == [s[0]] + s[1..];
      assert s[0] !in s[1..];
    }
  }

  lemma {:induction false} CountsNoDup<T(!new)>(s: seq<T>)
    requires forall x :: multiset(s)[x] <= 1
    ensures NoDup(s)
  {
    if s != [] {
      var t := s[1..];
      assert s == [s[0]] + t;
      assert multiset(s) == multiset{s[0]} + multiset(t);
      assert multiset(s)[s[0]] == 1 + multiset(t)[s[0]];
      forall x ensures multiset(t)[x] <= 1 {
        assert multiset(s)[x] <= 1;
      }
      CountsNoDup(t);
      assert s[0] !in multiset(t);
    }
  }

  lemma {:induction false} NoDupSize<T(!new)>(s: seq<T>)
    requires NoDup(s)
    ensures |Elems(s)| == |s|
  {
    if s != [] {
      NoDupSize(s[1..]);
      assert s[0] !in s[1..];
      assert Elems(s) == {s[0]} + Elems(s[1..]);
    }
  }

  /** A walk longer than the set it stays in visits something twice. */
  lemma {:induction false} Pigeonhole<T(!new)>(s: seq<T>, within: set<T>)
    requires forall x | x in s :: x in within
    requires |s| > |within|
    ensures !NoDup(s)
  {
    if NoDup(s) {
      NoDupSize(s);
      assert Elems(s) <= within;
      SubsetSize(Elems(s), within);
    }
  }

  lemma {:induction false} SubsetSize<T>(a: set<T>, b: set<T>)
    requires a <= b
    ensures |a| <= |b|
    ensures a < b ==> |a| < |b|
  {
    assert b == a + (b - a);
    assert |b| == |a| + |b - a|;
    if a < b {
      var x :| x in b && x !in a;
      assert x in b - a;
    }
  }

  /** What collecting a `BTreeSet` lists. */
  method SortedElements(s: set<string>) returns (r: seq<string>)
    ensures SortedBy(r, Self)
    ensures Elems(r) == s && NoDup(r)
  {
    var left := s;
    var listed: seq<string> := [];
    while left != {}
      invariant Elems(listed) == s - left && left <= s && NoDup(listed)
    {
      var x :| x in left;
      assert x !in Elems(listed);
      assert Elems(listed + [x]) == Elems(listed) + {x};
      left := left - {x};
      listed := listed + [x];
    }
    r := Sort(listed);
    SameElems(listed, r);
  }
}
