/** The list edits both course editors share: replace every element with a given id, remove
    every element with a given id, and the insert-or-replace of a saved course. */
module Lists {
  predicate HasId<T>(s: seq<T>, idOf: T -> string, id: string)
  {
    exists i :: 0 <= i < |s| && idOf(s[i]) == id
  }

  /** `list.map(e => idOf(e) === id ? x : e)`. */
  function ReplaceById<T>(s: seq<T>, idOf: T -> string, id: string, x: T): (r: seq<T>)
    ensures |r| == |s|
    ensures forall i :: 0 <= i < |s| && idOf(s[i]) != id ==> r[i] == s[i]
    ensures forall i :: 0 <= i < |s| && idOf(s[i]) == id ==> r[i] == x
  {
    if s == [] then []
    else [if idOf(s[0]) == id then x else s[0]] + ReplaceById(s[1..], idOf, id, x)
  }

  /** `list.filter(e => idOf(e) !== id)`. */
  function RemoveById<T(!new)>(s: seq<T>, idOf: T -> string, id: string): (r: seq<T>)
    ensures forall i :: 0 <= i < |r| ==> idOf(r[i]) != id
    ensures forall e :: multiset(r)[e] == if idOf(e) == id then 0 else multiset(s)[e]
    ensures |r| <= |s|
  {
    if s == [] then []
    else
      var rest := RemoveById(s[1..], idOf, id);
      assert s == [s[0]] + s[1..];
      if idOf(s[0]) == id then rest else [s[0]] + rest
  }

  /** `list.filter(p)`: the elements that satisfy `p`, in their order. */
  function Filter<T(!new)>(s: seq<T>, p: T -> bool): (r: seq<T>)
    ensures forall x :: x in r <==> x in s && p(x)
    ensures |r| <= |s|
  {
    if s == [] then []
    else
      assert forall x :: x in s <==> x == s[0] || x in s[1..];
      (if p(s[0]) then [s[0]] else []) + Filter(s[1..], p)
  }

  /** Filtering a list all of whose elements pass keeps it whole. */
  lemma {:induction false} FilterAll<T(!new)>(s: seq<T>, p: T -> bool)
    requires forall i :: 0 <= i < |s| ==> p(s[i])
    ensures Filter(s, p) == s
  {
    if s != [] {
      FilterAll(s[1..], p);
      assert s == [s[0]] + s[1..];
    }
  }

  /** Filtering distributes over concatenation. */
  lemma {:induction false} FilterAppend<T(!new)>(a: seq<T>, b: seq<T>, p: T -> bool)
    ensures Filter(a + b, p) == Filter(a, p) + Filter(b, p)
  {
    if a == [] {
      assert a + b == b;
    } else {
      assert (a + b)[0] == a[0];
      assert (a + b)[1..] == a[1..] + b;
      FilterAppend(a[1..], b, p);
    }
  }

  /** Removal keeps the survivors in their order: it distributes over concatenation. */
  lemma {:induction false} RemoveByIdAppend<T(!new)>(a: seq<T>, b: seq<T>, idOf: T -> string, id: string)
    ensures RemoveById(a + b, idOf, id) == RemoveById(a, idOf, id) + RemoveById(b, idOf, id)
  {
    if a == [] {
      assert a + b == b;
    } else {
      assert (a + b)[1..] == a[1..] + b;
      RemoveByIdAppend(a[1..], b, idOf, id);
    }
  }

  /** Removal depends only on which elements there are and how often: permutations stay
      permutations. */
  lemma RemovePermutation<T(!new)>(a: seq<T>, b: seq<T>, idOf: T -> string, id: string)
    requires multiset(a) == multiset(b)
    ensures multiset(RemoveById(a, idOf, id)) == multiset(RemoveById(b, idOf, id))
  {
    var ra, rb := RemoveById(a, idOf, id), RemoveById(b, idOf, id);
    forall e ensures multiset(ra)[e] == multiset(rb)[e] {
    }
  }

  /** Removing an id no element carries changes nothing. */
  lemma {:induction false} RemoveAbsentId<T(!new)>(s: seq<T>, idOf: T -> string, id: string)
    requires !HasId(s, idOf, id)
    ensures RemoveById(s, idOf, id) == s
  {
    if s != [] {
      assert !HasId(s[1..], idOf, id) by {
        forall i | 0 <= i < |s[1..]| ensures idOf(s[1..][i]) != id {
          assert s[1..][i] == s[i + 1];
        }
      }
      RemoveAbsentId(s[1..], idOf, id);
      assert s == [s[0]] + s[1..];
    }
  }

  /** Replacing with a record that keeps the id does not change what removal of that id
      leaves behind. */
  lemma {:induction false} RemoveAfterReplace<T(!new)>(s: seq<T>, idOf: T -> string, id: string, x: T)
    requires idOf(x) == id
    ensures RemoveById(ReplaceById(s, idOf, id, x), idOf, id) == RemoveById(s, idOf, id)
  {
    if s != [] {
      var r := ReplaceById(s, idOf, id, x);
      assert r[1..] == ReplaceById(s[1..], idOf, id, x);
      RemoveAfterReplace(s[1..], idOf, id, x);
    }
  }

  /** The save of a course editor: replace the elements that carry the record's id, or append
      the record when none does. */
  function Upsert<T>(s: seq<T>, idOf: T -> string, x: T): (r: seq<T>)
    ensures HasId(s, idOf, idOf(x)) ==> |r| == |s|
    ensures !HasId(s, idOf, idOf(x)) ==> |r| == |s| + 1 && r[..|s|] == s && r[|s|] == x
    ensures forall i :: 0 <= i < |s| && idOf(s[i]) != idOf(x) ==> r[i] == s[i]
    ensures forall i :: 0 <= i < |r| && idOf(r[i]) == idOf(x) ==> r[i] == x
    ensures x in r
  {
    if HasId(s, idOf, idOf(x)) then
      var r := ReplaceById(s, idOf, idOf(x), x);
      var i :| 0 <= i < |s| && idOf(s[i]) == idOf(x);
      assert r[i] == x;
      r
    else
      s + [x]
  }

  /** Saving the same record twice is the same as saving it once. */
  lemma UpsertIdempotent<T>(s: seq<T>, idOf: T -> string, x: T)
    ensures Upsert(Upsert(s, idOf, x), idOf, x) == Upsert(s, idOf, x)
  {
    var r := Upsert(s, idOf, x);
    assert HasId(r, idOf, idOf(x)) by {
      var i :| 0 <= i < |r| && r[i] == x;
    }
    var rr := ReplaceById(r, idOf, idOf(x), x);
    assert |rr| == |r|;
    forall i | 0 <= i < |r| ensures rr[i] == r[i] {
    }
  }

  /** Saving and then deleting a record's id leaves what deleting that id alone leaves. */
  lemma RemoveAfterUpsert<T(!new)>(s: seq<T>, idOf: T -> string, x: T)
    ensures RemoveById(Upsert(s, idOf, x), idOf, idOf(x)) == RemoveById(s, idOf, idOf(x))
  {
    if HasId(s, idOf, idOf(x)) {
      RemoveAfterReplace(s, idOf, idOf(x), x);
    } else {
      RemoveByIdAppend(s, [x], idOf, idOf(x));
      assert RemoveById([x], idOf, idOf(x)) == [];
    }
  }
}
