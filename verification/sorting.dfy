/** The order both transcript views sort by (academic year, then semester) and the stable sort
    `Array.prototype.sort` performs with that comparator. */
module Sorting {
  /** `a.localeCompare(b) < 0`, taken as code-point order: a proper prefix comes first,
      otherwise the first differing character decides.  On academic years written with digits
      and '-' this is the collation order too. */
  predicate LexLess(a: string, b: string)
    decreases |a|
  {
    if b == [] then false
    else if a == [] then true
    else a[0] < b[0] || (a[0] == b[0] && LexLess(a[1..], b[1..]))
  }

  /** `a` is a proper prefix of `b`. */
  predicate ProperPrefix(a: string, b: string)
  {
    |a| < |b| && a == b[..|a|]
  }

  /** `a` and `b` agree before position `k`, where `a` has the smaller character. */
  predicate DiffersBelowAt(a: string, b: string, k: int)
  {
    0 <= k < |a| && k < |b| && a[..k] == b[..k] && a[k] < b[k]
  }

  /** The order without recursion: a proper prefix comes first, and otherwise the first
      position where the strings differ decides. */
  lemma {:induction false} LexLessMeans(a: string, b: string)
    ensures LexLess(a, b) <==> ProperPrefix(a, b) || exists k :: DiffersBelowAt(a, b, k)
    decreases |a|
  {
    if b == [] || a == [] {
      if a == [] && b != [] {
        assert ProperPrefix(a, b);
      }
    } else {
      var a', b' := a[1..], b[1..];
      LexLessMeans(a', b');
      if LexLess(a, b) {
        if a[0] < b[0] {
          assert DiffersBelowAt(a, b, 0);
        } else if ProperPrefix(a', b') {
          assert a == [a[0]] + a' && b[..|a|] == [b[0]] + b'[..|a'|];
        } else {
          var k' :| DiffersBelowAt(a', b', k');
          assert a[..k' + 1] == [a[0]] + a'[..k'] && b[..k' + 1] == [b[0]] + b'[..k'];
          assert DiffersBelowAt(a, b, k' + 1);
        }
      }
      if ProperPrefix(a, b) {
        assert a[0] == b[..|a|][0] == b[0];
        assert a' == b'[..|a'|];
        assert ProperPrefix(a', b');
      }
      if exists k :: DiffersBelowAt(a, b, k) {
        var k :| DiffersBelowAt(a, b, k);
        if k > 0 {
          assert a[0] == a[..k][0] == b[..k][0] == b[0];
          assert a'[..k - 1] == a[..k][1..] && b'[..k - 1] == b[..k][1..];
          assert DiffersBelowAt(a', b', k - 1);
        }
      }
    }
  }

  lemma {:induction false} LexLessIrreflexive(a: string)
    ensures !LexLess(a, a)
  {
    if a != [] {
      LexLessIrreflexive(a[1..]);
    }
  }

  lemma {:induction false} LexLessTransitive(a: string, b: string, c: string)
    requires LexLess(a, b) && LexLess(b, c)
    ensures LexLess(a, c)
    decreases |a|
  {
    if a != [] && a[0] == b[0] && b[0] == c[0] {
      LexLessTransitive(a[1..], b[1..], c[1..]);
    }
  }

  /** Two different strings are ordered one way or the other. */
  lemma {:induction false} LexLessTotal(a: string, b: string)
    requires a != b
    ensures LexLess(a, b) || LexLess(b, a)
    decreases |a|
  {
    if a != [] && b != [] && a[0] == b[0] {
      assert a == [a[0]] + a[1..] && b == [b[0]] + b[1..];
      LexLessTotal(a[1..], b[1..]);
    }
  }

  lemma {:induction false} LexLessAsymmetric(a: string, b: string)
    requires LexLess(a, b)
    ensures !LexLess(b, a)
    decreases |a|
  {
    if a != [] && a[0] == b[0] {
      LexLessAsymmetric(a[1..], b[1..]);
    }
  }

  /** What the comparator looks at: the academic year and the semester's rank. */
  datatype SortKey = SortKey(year: string, rank: int)

  /** The comparator returns a negative number. */
  predicate KeyLess(a: SortKey, b: SortKey)
  {
    LexLess(a.year, b.year) || (a.year == b.year && a.rank < b.rank)
  }

  /** The comparator orders keys strictly: irreflexive, transitive, and any two different
      keys are ordered one way or the other. */
  lemma KeyOrder(a: SortKey, b: SortKey, c: SortKey)
    ensures !KeyLess(a, a)
    ensures KeyLess(a, b) && KeyLess(b, c) ==> KeyLess(a, c)
    ensures a != b ==> KeyLess(a, b) || KeyLess(b, a)
    ensures KeyLess(a, b) ==> !KeyLess(b, a)
  {
    LexLessIrreflexive(a.year);
    if KeyLess(a, b) && KeyLess(b, c) {
      if LexLess(a.year, b.year) && LexLess(b.year, c.year) {
        LexLessTransitive(a.year, b.year, c.year);
      }
    }
    if a != b && a.year != b.year {
      LexLessTotal(a.year, b.year);
    }
    if LexLess(a.year, b.year) {
      LexLessAsymmetric(a.year, b.year);
    }
  }

  /** The order rank `semesterOrder[semester] || 0`: Fall 0, Spring 1, Summer 2, Winter 3, and
      0 for any other name. */
  function SemesterRank(semester: string): (k: int)
    ensures 0 <= k <= 3
  {
    if semester == "Spring" then 1
    else if semester == "Summer" then 2
    else if semester == "Winter" then 3
    else 0
  }

  /** Fall comes before Spring, Spring before Summer and Summer before Winter; any other name
      ranks with Fall. */
  lemma SemesterOrder(other: string)
    requires other != "Fall" && other != "Spring" && other != "Summer" && other != "Winter"
    ensures SemesterRank("Fall") < SemesterRank("Spring") < SemesterRank("Summer") < SemesterRank("Winter")
    ensures SemesterRank(other) == SemesterRank("Fall")
  {
  }

  predicate Sorted<T>(s: seq<T>, key: T -> SortKey)
  {
    forall i, j :: 0 <= i < j < |s| ==> !KeyLess(key(s[j]), key(s[i]))
  }

  /** The elements of `s` whose key is `k`, in order. */
  function WithKey<T>(s: seq<T>, key: T -> SortKey, k: SortKey): (r: seq<T>)
    ensures |r| <= |s|
  {
    if s == [] then [] else (if key(s[0]) == k then [s[0]] else []) + WithKey(s[1..], key, k)
  }

  lemma {:induction false} WithKeyAppend<T>(a: seq<T>, b: seq<T>, key: T -> SortKey, k: SortKey)
    ensures WithKey(a + b, key, k) == WithKey(a, key, k) + WithKey(b, key, k)
  {
    if a == [] {
      assert a + b == b;
    } else {
      assert (a + b)[1..] == a[1..] + b;
      WithKeyAppend(a[1..], b, key, k);
    }
  }

  /** Inserts `x` before the first element whose key is greater than its own, so after every
      element with an equal key. */
  function Insert<T>(t: seq<T>, x: T, key: T -> SortKey): (r: seq<T>)
    ensures |r| == |t| + 1
    ensures multiset(r) == multiset(t) + multiset{x}
  {
    if t == [] then [x]
    else if KeyLess(key(x), key(t[0])) then [x] + t
    else
      assert t == [t[0]] + t[1..];
      [t[0]] + Insert(t[1..], x, key)
  }

  /** Every element of a sorted sequence that starts above `k` lies above `k`. */
  lemma AllAbove<T>(t: seq<T>, key: T -> SortKey, k: SortKey)
    requires Sorted(t, key) && t != [] && KeyLess(k, key(t[0]))
    ensures forall i :: 0 <= i < |t| ==> KeyLess(k, key(t[i]))
  {
    forall i | 0 <= i < |t| ensures KeyLess(k, key(t[i])) {
      KeyOrder(key(t[0]), key(t[i]), key(t[0]));
      KeyOrder(k, key(t[0]), key(t[i]));
      if i > 0 && key(t[i]) != key(t[0]) {
        assert !KeyLess(key(t[i]), key(t[0]));
      }
    }
  }

  lemma {:induction false} InsertSorted<T>(t: seq<T>, x: T, key: T -> SortKey)
    requires Sorted(t, key)
    ensures Sorted(Insert(t, x, key), key)
  {
    var r := Insert(t, x, key);
    if t == [] {
    } else if KeyLess(key(x), key(t[0])) {
      AllAbove(t, key, key(x));
      forall i, j | 0 <= i < j < |r| ensures !KeyLess(key(r[j]), key(r[i])) {
        if i == 0 {
          KeyOrder(key(x), key(r[j]), key(x));
        }
      }
    } else {
      var tail := Insert(t[1..], x, key);
      assert Sorted(t[1..], key);
      InsertSorted(t[1..], x, key);
      assert r == [t[0]] + tail;
      forall j | 0 < j < |r| ensures !KeyLess(key(r[j]), key(t[0])) {
        assert r[j] in multiset(tail);
        assert r[j] in multiset(t[1..]) + multiset{x};
        if r[j] != x {
          var m :| 0 <= m < |t[1..]| && t[1..][m] == r[j];
          assert r[j] == t[m + 1];
        }
      }
    }
  }

  /** Inserting `x` adds it after the elements that share its key. */
  lemma {:induction false} InsertWithKey<T>(t: seq<T>, x: T, key: T -> SortKey, k: SortKey)
    requires Sorted(t, key)
    ensures WithKey(Insert(t, x, key), key, k)
            == WithKey(t, key, k) + (if key(x) == k then [x] else [])
  {
    if t == [] {
    } else if KeyLess(key(x), key(t[0])) {
      WithKeyCons(x, t, key, k);
      if key(x) == k {
        AllAbove(t, key, k);
        NoneWithKey(t, key, k);
      }
    } else {
      var tail := Insert(t[1..], x, key);
      var p := if key(t[0]) == k then [t[0]] else [];
      var xs := if key(x) == k then [x] else [];
      SortedTail(t, key);
      InsertWithKey(t[1..], x, key, k);
      calc {
        WithKey(Insert(t, x, key), key, k);
        == { WithKeyCons(t[0], tail, key, k); }
        p + WithKey(tail, key, k);
        ==
        p + (WithKey(t[1..], key, k) + xs);
        == { ConcatAssoc(p, WithKey(t[1..], key, k), xs); }
        (p + WithKey(t[1..], key, k)) + xs;
        == { WithKeyCons(t[0], t[1..], key, k); assert [t[0]] + t[1..] == t; }
        WithKey(t, key, k) + xs;
      }
    }
  }

  lemma ConcatAssoc<T>(a: seq<T>, b: seq<T>, c: seq<T>)
    ensures a + (b + c) == (a + b) + c
  {
  }

  lemma SortedTail<T>(t: seq<T>, key: T -> SortKey)
    requires Sorted(t, key) && t != []
    ensures Sorted(t[1..], key)
  {
    forall i, j | 0 <= i < j < |t| - 1 ensures !KeyLess(key(t[1..][j]), key(t[1..][i])) {
      assert t[1..][j] == t[j + 1] && t[1..][i] == t[i + 1];
    }
  }

  lemma WithKeyCons<T>(y: T, rest: seq<T>, key: T -> SortKey, k: SortKey)
    ensures WithKey([y] + rest, key, k) == (if key(y) == k then [y] else []) + WithKey(rest, key, k)
  {
    assert ([y] + rest)[1..] == rest;
  }

  lemma {:induction false} NoneWithKey<T>(t: seq<T>, key: T -> SortKey, k: SortKey)
    requires forall i :: 0 <= i < |t| ==> KeyLess(k, key(t[i]))
    ensures WithKey(t, key, k) == []
  {
    if t != [] {
      KeyOrder(k, k, k);
      assert forall i :: 0 <= i < |t[1..]| ==> KeyLess(k, key(t[1..][i])) by {
        forall i | 0 <= i < |t[1..]| ensures KeyLess(k, key(t[1..][i])) {
          assert t[1..][i] == t[i + 1];
        }
      }
      NoneWithKey(t[1..], key, k);
    }
  }

  /** `s.sort(comparator)`: insertion of each element, from first to last, into the sorted
      prefix. */
  function Sort<T>(s: seq<T>, key: T -> SortKey): (r: seq<T>)
    ensures |r| == |s|
  {
    if s == [] then [] else Insert(Sort(s[..|s| - 1], key), s[|s| - 1], key)
  }

  /** The sort orders by the comparator, keeps every element exactly as often as it occurs,
      and keeps elements with equal keys in their original order (it is stable). */
  lemma {:induction false} SortCorrect<T>(s: seq<T>, key: T -> SortKey)
    ensures Sorted(Sort(s, key), key)
    ensures multiset(Sort(s, key)) == multiset(s)
    ensures forall k :: WithKey(Sort(s, key), key, k) == WithKey(s, key, k)
  {
    if s != [] {
      var init, last := s[..|s| - 1], s[|s| - 1];
      assert s == init + [last];
      SortCorrect(init, key);
      InsertSorted(Sort(init, key), last, key);
      forall k ensures WithKey(Sort(s, key), key, k) == WithKey(s, key, k) {
        InsertWithKey(Sort(init, key), last, key, k);
        WithKeyAppend(init, [last], key, k);
        assert WithKey([last], key, k) == (if key(last) == k then [last] else []) by {
          assert [last][1..] == [];
        }
      }
    }
  }
}
