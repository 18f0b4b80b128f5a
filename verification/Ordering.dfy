/** Sorting by a total preorder and the lexicographic order on text. */
module Ordering {

  ghost predicate Preorder<T(!new)>(le: (T, T) -> bool) {
    && (forall x, y :: le(x, y) || le(y, x))
    && (forall x, y, z :: le(x, y) && le(y, z) ==> le(x, z))
  }

  ghost predicate Sorted<T(!new)>(le: (T, T) -> bool, s: seq<T>) {
    forall i, j :: 0 <= i < j < |s| ==> le(s[i], s[j])
  }

  /** No two different elements of `s` tie. */
  ghost predicate NoTies<T(!new)>(le: (T, T) -> bool, s: seq<T>) {
    forall x, y :: x in s && y in s && le(x, y) && le(y, x) ==> x == y
  }

  function Insert<T>(le: (T, T) -> bool, x: T, s: seq<T>): seq<T> {
    if s == [] || le(x, s[0]) then [x] + s else [s[0]] + Insert(le, x, s[1..])
  }

  /** A stable sort. */
  function Sort<T>(le: (T, T) -> bool, s: seq<T>): seq<T> {
    if s == [] then [] else Insert(le, s[0], Sort(le, s[1..]))
  }

  lemma {:induction false} InsertElements<T>(le: (T, T) -> bool, x: T, s: seq<T>)
    ensures multiset(Insert(le, x, s)) == multiset(s) + multiset{x}
  {
    if s != [] && !le(x, s[0]) {
      assert s == [s[0]] + s[1..];
      InsertElements(le, x, s[1..]);
    }
  }

  lemma {:induction false} InsertSorted<T(!new)>(le: (T, T) -> bool, x: T, s: seq<T>)
    requires Preorder(le) && Sorted(le, s)
    ensures Sorted(le, Insert(le, x, s))
  {
    if s != [] && !le(x, s[0]) {
      assert s == [s[0]] + s[1..];
      InsertSorted(le, x, s[1..]);
      InsertElements(le, x, s[1..]);
      var rest := Insert(le, x, s[1..]);
      forall i | 0 <= i < |rest|
        ensures le(s[0], rest[i])
      {
        assert rest[i] in multiset(rest);
        assert rest[i] in s[1..] || rest[i] == x;
      }
    } else if s != [] {
      forall i | 0 <= i < |s|
        ensures le(x, s[i])
      {
        assert le(x, s[0]);
        assert i > 0 ==> le(s[0], s[i]);
      }
    }
  }

  lemma {:induction false} SortSpec<T(!new)>(le: (T, T) -> bool, s: seq<T>)
    requires Preorder(le)
    ensures Sorted(le, Sort(le, s))
    ensures multiset(Sort(le, s)) == multiset(s)
    ensures |Sort(le, s)| == |s|
    ensures forall x :: x in Sort(le, s) <==> x in s
  {
    if s != [] {
      assert s == [s[0]] + s[1..];
      SortSpec(le, s[1..]);
      InsertSorted(le, s[0], Sort(le, s[1..]));
      InsertElements(le, s[0], Sort(le, s[1..]));
    }
    SameElements(Sort(le, s), s);
  }

  lemma SameElements<T>(s: seq<T>, t: seq<T>)
    requires multiset(s) == multiset(t)
    ensures |s| == |t|
    ensures forall x :: x in s <==> x in t
  {
    assert |multiset(s)| == |s| && |multiset(t)| == |t|;
    forall x
      ensures x in s <==> x in t
    {
      assert x in s <==> x in multiset(s);
      assert x in t <==> x in multiset(t);
    }
  }

  /** Without ties two sorted arrangements of the same elements start alike. */
  lemma SameHead<T(!new)>(le: (T, T) -> bool, s: seq<T>, t: seq<T>)
    requires s != [] && t != [] && s[0] in t && t[0] in s
    requires Sorted(le, s) && Sorted(le, t) && NoTies(le, s) && le(s[0], s[0])
    ensures s[0] == t[0]
  {
    var i :| 0 <= i < |s| && s[i] == t[0];
    var j :| 0 <= j < |t| && t[j] == s[0];
    assert i > 0 ==> le(s[0], s[i]);
    assert j > 0 ==> le(t[0], t[j]);
    assert s[0] in s;
  }

  lemma TailSorted<T(!new)>(le: (T, T) -> bool, s: seq<T>)
    requires s != [] && Sorted(le, s)
    ensures Sorted(le, s[1..])
    ensures NoTies(le, s) ==> NoTies(le, s[1..])
  {
    var tail := s[1..];
    forall i, j | 0 <= i < j < |tail|
      ensures le(tail[i], tail[j])
    {
      assert tail[i] == s[i + 1] && tail[j] == s[j + 1];
    }
    assert forall x :: x in tail ==> x in s;
  }

  /** Without ties a sorted arrangement of given elements is unique. */
  lemma {:induction false} SortedUnique<T(!new)>(le: (T, T) -> bool, s: seq<T>, t: seq<T>)
    requires Sorted(le, s) && Sorted(le, t) && multiset(s) == multiset(t) && NoTies(le, s)
    requires forall x :: le(x, x)
    ensures s == t
  {
    SameElements(s, t);
    if s != [] {
      SameHead(le, s, t);
      TailElements(s);
      TailElements(t);
      TailSorted(le, s);
      TailSorted(le, t);
      SortedUnique(le, s[1..], t[1..]);
      SameFromHead(s, t);
    }
  }

  lemma SameFromHead<T>(s: seq<T>, t: seq<T>)
    requires s != [] && t != [] && s[0] == t[0] && s[1..] == t[1..]
    ensures s == t
  {
    assert s == [s[0]] + s[1..] && t == [t[0]] + t[1..];
  }

  lemma TailElements<T>(s: seq<T>)
    requires s != []
    ensures multiset(s[1..]) == multiset(s) - multiset{s[0]}
    ensures forall x :: x in s[1..] ==> x in s
  {
    assert s == [s[0]] + s[1..];
  }

  /** No element clashes with a later one. */
  ghost predicate Separate<T(!new)>(clash: (T, T) -> bool, s: seq<T>) {
    forall i, j :: 0 <= i < j < |s| ==> !clash(s[i], s[j])
  }

  lemma {:induction false} InsertSeparate<T(!new)>(le: (T, T) -> bool, clash: (T, T) -> bool, x: T, s: seq<T>)
    requires forall a, b :: clash(a, b) <==> clash(b, a)
    requires Separate(clash, s) && forall i :: 0 <= i < |s| ==> !clash(x, s[i])
    ensures Separate(clash, Insert(le, x, s))
  {
    if s != [] && !le(x, s[0]) {
      InsertSeparate(le, clash, x, s[1..]);
      InsertElements(le, x, s[1..]);
      var rest := Insert(le, x, s[1..]);
      forall i | 0 <= i < |rest|
        ensures !clash(s[0], rest[i])
      {
        assert rest[i] in multiset(rest);
        assert rest[i] in s[1..] || rest[i] == x;
        assert clash(s[0], x) <==> clash(x, s[0]);
      }
    }
  }

  /** Sorting keeps elements that do not clash. */
  lemma {:induction false} SortSeparate<T(!new)>(le: (T, T) -> bool, clash: (T, T) -> bool, s: seq<T>)
    requires Preorder(le) && forall a, b :: clash(a, b) <==> clash(b, a)
    requires Separate(clash, s)
    ensures Separate(clash, Sort(le, s))
  {
    if s != [] {
      SortSeparate(le, clash, s[1..]);
      SortSpec(le, s[1..]);
      var rest := Sort(le, s[1..]);
      forall i | 0 <= i < |rest|
        ensures !clash(s[0], rest[i])
      {
        assert rest[i] in s[1..];
      }
      InsertSeparate(le, clash, s[0], rest);
    }
  }

  ghost predicate Distinct<T>(s: seq<T>) {
    forall i, j :: 0 <= i < j < |s| ==> s[i] != s[j]
  }

  /** The order of Python strings. */
  predicate TextLe(s: string, t: string) {
    s == [] || (t != [] && (s[0] < t[0] || (s[0] == t[0] && TextLe(s[1..], t[1..]))))
  }

  lemma {:induction false} TextLeTotal(s: string, t: string)
    ensures TextLe(s, t) || TextLe(t, s)
    ensures TextLe(s, t) && TextLe(t, s) ==> s == t
  {
    if s != [] && t != [] {
      TextLeTotal(s[1..], t[1..]);
      assert s == [s[0]] + s[1..] && t == [t[0]] + t[1..];
    }
  }

  lemma {:induction false} TextLeTransitive(s: string, t: string, u: string)
    requires TextLe(s, t) && TextLe(t, u)
    ensures TextLe(s, u)
  {
    if s != [] && s[0] == t[0] == u[0] {
      TextLeTransitive(s[1..], t[1..], u[1..]);
    }
  }

  lemma TextPreorder()
    ensures Preorder(TextLe)
  {
    forall x: string, y: string
      ensures TextLe(x, y) || TextLe(y, x)
    {
      TextLeTotal(x, y);
    }
    forall x: string, y: string, z: string | TextLe(x, y) && TextLe(y, z)
      ensures TextLe(x, z)
    {
      TextLeTransitive(x, y, z);
    }
  }

  /** At k two texts differ for the first time, or one of them ends. */
  ghost predicate DifferAt(s: string, t: string, k: nat) {
    k <= |s| && k <= |t| && s[..k] == t[..k] && (k == |s| || k == |t| || s[k] != t[k])
  }

  /** One text comes before another if it is a prefix or has the smaller character where they first differ. */
  lemma {:induction false} TextLeSpec(s: string, t: string) returns (k: nat)
    ensures DifferAt(s, t, k)
    ensures TextLe(s, t) <==> k == |s| || (k < |t| && s[k] < t[k])
  {
    if s == [] || t == [] || s[0] != t[0] {
      k := 0;
    } else {
      var n := TextLeSpec(s[1..], t[1..]);
      k := n + 1;
      assert s[..k] == [s[0]] + s[1..][..n] && t[..k] == [t[0]] + t[1..][..n];
    }
  }
}
