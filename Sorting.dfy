/** Kotlin's `sortedBy`, `sortedByDescending` and `sorted`: a stable sort,
    written here as insertion sort over an ordering relation `le`. */
module Sorting {

  /** `le` is total and transitive: a sort key compared with `<=`. */
  ghost predicate TotalPreorder<T(!new)>(le: (T, T) -> bool)
  {
    && (forall a, b :: le(a, b) || le(b, a))
    && (forall a, b, c :: le(a, b) && le(b, c) ==> le(a, c))
  }

  ghost predicate Sorted<T>(s: seq<T>, le: (T, T) -> bool)
  {
    forall i, j :: 0 <= i < j < |s| ==> le(s[i], s[j])
  }

  /** Two elements with equal sort keys. */
  predicate Equivalent<T>(le: (T, T) -> bool, a: T, b: T)
  {
    le(a, b) && le(b, a)
  }

  /** Puts `x` in front of the first element it is not greater than, so that
      `x` precedes every element of `s` with the same key. */
  function Insert<T>(x: T, s: seq<T>, le: (T, T) -> bool): seq<T>
  {
    if |s| == 0 then [x]
    else if le(x, s[0]) then [x] + s
    else [s[0]] + Insert(x, s[1..], le)
  }

  function Sort<T>(s: seq<T>, le: (T, T) -> bool): seq<T>
  {
    if |s| == 0 then [] else Insert(s[0], Sort(s[1..], le), le)
  }

  lemma {:induction false} InsertPermutes<T>(x: T, s: seq<T>, le: (T, T) -> bool)
    ensures multiset(Insert(x, s, le)) == multiset(s) + multiset{x}
  {
    if |s| > 0 && !le(x, s[0]) {
      InsertPermutes(x, s[1..], le);
      assert s == [s[0]] + s[1..];
    }
  }

  /** The sort rearranges its input and neither drops nor duplicates an element. */
  lemma {:induction false} SortPermutes<T>(s: seq<T>, le: (T, T) -> bool)
    ensures multiset(Sort(s, le)) == multiset(s)
    ensures |Sort(s, le)| == |s|
  {
    if |s| > 0 {
      SortPermutes(s[1..], le);
      InsertPermutes(s[0], Sort(s[1..], le), le);
      assert s == [s[0]] + s[1..];
    }
    assert |multiset(Sort(s, le))| == |multiset(s)|;
  }

  /** The sorted sequence holds the same elements as its input. */
  lemma SortMembers<T>(s: seq<T>, le: (T, T) -> bool)
    ensures forall x :: x in Sort(s, le) <==> x in s
  {
    SortPermutes(s, le);
    forall x ensures x in Sort(s, le) <==> x in s {
      assert x in Sort(s, le) <==> x in multiset(Sort(s, le));
    }
  }

  lemma {:induction false} InsertSorted<T(!new)>(x: T, s: seq<T>, le: (T, T) -> bool)
    requires TotalPreorder(le)
    requires Sorted(s, le)
    ensures Sorted(Insert(x, s, le), le)
  {
    if |s| > 0 && !le(x, s[0]) {
      InsertSorted(x, s[1..], le);
      InsertPermutes(x, s[1..], le);
      var r := Insert(x, s[1..], le);
      forall k | 0 <= k < |r| ensures le(s[0], r[k]) {
        assert r[k] in multiset(r);
        assert r[k] == x || r[k] in multiset(s[1..]);
        if r[k] != x {
          var j :| 0 <= j < |s[1..]| && s[1..][j] == r[k];
          assert s[j + 1] == r[k];
        }
      }
    }
  }

  /** The result is ordered by `le`. */
  lemma {:induction false} SortSorted<T(!new)>(s: seq<T>, le: (T, T) -> bool)
    requires TotalPreorder(le)
    ensures Sorted(Sort(s, le), le)
  {
    if |s| > 0 {
      SortSorted(s[1..], le);
      InsertSorted(s[0], Sort(s[1..], le), le);
    }
  }

  /** The elements of `s` with the same key as `x`, in the order of `s`. */
  function KeyClass<T>(s: seq<T>, x: T, le: (T, T) -> bool): seq<T>
  {
    if |s| == 0 then []
    else (if Equivalent(le, s[0], x) then [s[0]] else []) + KeyClass(s[1..], x, le)
  }

  lemma {:induction false} InsertKeyClass<T(!new)>(y: T, s: seq<T>, x: T, le: (T, T) -> bool)
    requires TotalPreorder(le)
    ensures KeyClass(Insert(y, s, le), x, le)
         == (if Equivalent(le, y, x) then [y] else []) + KeyClass(s, x, le)
  {
    if |s| > 0 && !le(y, s[0]) {
      InsertKeyClass(y, s[1..], x, le);
      assert Insert(y, s, le)[1..] == Insert(y, s[1..], le);
      assert Equivalent(le, y, x) ==> !Equivalent(le, s[0], x);
    } else if |s| > 0 {
      assert Insert(y, s, le)[1..] == s;
    }
  }

  /** Stability: elements with equal keys keep their input order. */
  lemma {:induction false} SortStable<T(!new)>(s: seq<T>, x: T, le: (T, T) -> bool)
    requires TotalPreorder(le)
    ensures KeyClass(Sort(s, le), x, le) == KeyClass(s, x, le)
  {
    if |s| > 0 {
      SortStable(s[1..], x, le);
      InsertKeyClass(s[0], Sort(s[1..], le), x, le);
    }
  }

  /** No two distinct elements of `s` share a key. */
  ghost predicate KeysDistinct<T>(s: seq<T>, le: (T, T) -> bool)
  {
    forall i, j :: 0 <= i < |s| && 0 <= j < |s| && Equivalent(le, s[i], s[j]) ==> s[i] == s[j]
  }

  lemma SortedHeadsEqual<T>(a: seq<T>, b: seq<T>, le: (T, T) -> bool)
    requires |a| > 0 && |b| > 0
    requires Sorted(a, le) && Sorted(b, le)
    requires multiset(a) == multiset(b)
    requires KeysDistinct(a, le)
    ensures a[0] == b[0]
  {
    assert a[0] in multiset(b) && b[0] in multiset(a);
    var j :| 0 <= j < |b| && b[j] == a[0];
    var i :| 0 <= i < |a| && a[i] == b[0];
    if j > 0 && i > 0 {
      assert le(b[0], b[j]) && le(a[0], a[i]);
      assert Equivalent(le, a[0], a[i]);
    }
  }

  lemma DropHead<T>(a: seq<T>, b: seq<T>, le: (T, T) -> bool)
    requires |a| > 0 && |b| > 0 && a[0] == b[0]
    requires Sorted(a, le) && Sorted(b, le)
    requires multiset(a) == multiset(b)
    requires KeysDistinct(a, le)
    ensures Sorted(a[1..], le) && Sorted(b[1..], le)
    ensures multiset(a[1..]) == multiset(b[1..])
    ensures KeysDistinct(a[1..], le)
  {
    assert a == [a[0]] + a[1..] && b == [b[0]] + b[1..];
    assert multiset(a) == multiset{a[0]} + multiset(a[1..]);
    assert multiset(b) == multiset{b[0]} + multiset(b[1..]);
    forall y ensures multiset(a[1..])[y] == multiset(b[1..])[y] {
      assert multiset(a)[y] == multiset{a[0]}[y] + multiset(a[1..])[y];
      assert multiset(b)[y] == multiset{b[0]}[y] + multiset(b[1..])[y];
    }
  }

  /** Two sorted arrangements of the same elements coincide when no two distinct elements share a key. */
  lemma {:induction false} SortedArrangementUnique<T>(a: seq<T>, b: seq<T>, le: (T, T) -> bool)
    requires Sorted(a, le) && Sorted(b, le)
    requires multiset(a) == multiset(b)
    requires KeysDistinct(a, le)
    ensures a == b
  {
    assert |a| == |multiset(a)| == |multiset(b)| == |b|;
    if |a| > 0 {
      SortedHeadsEqual(a, b, le);
      DropHead(a, b, le);
      SortedArrangementUnique(a[1..], b[1..], le);
      assert a == [a[0]] + a[1..] && b == [b[0]] + b[1..];
    }
  }

  /** Sorting ignores the input order when no two distinct elements share a key. */
  lemma SortIgnoresInputOrder<T(!new)>(a: seq<T>, b: seq<T>, le: (T, T) -> bool)
    requires TotalPreorder(le)
    requires multiset(a) == multiset(b)
    requires KeysDistinct(a, le)
    ensures Sort(a, le) == Sort(b, le)
  {
    SortPermutes(a, le);
    SortPermutes(b, le);
    SortSorted(a, le);
    SortSorted(b, le);
    var sa := Sort(a, le);
    forall i, j | 0 <= i < |sa| && 0 <= j < |sa| && Equivalent(le, sa[i], sa[j])
      ensures sa[i] == sa[j]
    {
      assert sa[i] in multiset(a) && sa[j] in multiset(a);
      var i' :| 0 <= i' < |a| && a[i'] == sa[i];
      var j' :| 0 <= j' < |a| && a[j'] == sa[j];
    }
    SortedArrangementUnique(sa, Sort(b, le), le);
  }
}
