/** Comparator sorting as JavaScript's stable `Array.prototype.sort` performs it, and the
    code-unit order on strings that `sort()` without a comparator uses. */
module Ordering {
  import opened Facts
  import opened JsValues

  /** A comparator is usable when it is total and transitive; ties are allowed. */
  ghost predicate Preorder<T(!new)>(le: (T, T) -> bool) {
    && (forall x, y :: le(x, y) || le(y, x))
    && (forall x, y, z :: le(x, y) && le(y, z) ==> le(x, z))
  }

  ghost predicate TotalOrder<T(!new)>(le: (T, T) -> bool) {
    Preorder(le) && forall x, y :: le(x, y) && le(y, x) ==> x == y
  }

  ghost predicate Sorted<T>(le: (T, T) -> bool, s: seq<T>) {
    forall i, j :: 0 <= i < j < |s| ==> le(s[i], s[j])
  }

  function Insert<T>(le: (T, T) -> bool, x: T, s: seq<T>): seq<T> {
    if s == [] || le(x, s[0]) then [x] + s else [s[0]] + Insert(le, x, s[1..])
  }

  function Sort<T>(le: (T, T) -> bool, s: seq<T>): seq<T> {
    if s == [] then [] else Insert(le, s[0], Sort(le, s[1..]))
  }

  lemma {:induction false} InsertElements<T>(le: (T, T) -> bool, x: T, s: seq<T>)
    ensures multiset(Insert(le, x, s)) == multiset{x} + multiset(s)
  {
    if s == [] || le(x, s[0]) {
    } else {
      InsertElements(le, x, s[1..]);
      assert s == [s[0]] + s[1..];
    }
  }

  lemma {:induction false} SortElements<T>(le: (T, T) -> bool, s: seq<T>)
    ensures multiset(Sort(le, s)) == multiset(s)
    ensures |Sort(le, s)| == |s|
  {
    if s != [] {
      SortElements(le, s[1..]);
      InsertElements(le, s[0], Sort(le, s[1..]));
      assert s == [s[0]] + s[1..];
    }
    assert |multiset(Sort(le, s))| == |Sort(le, s)|;
    assert |multiset(s)| == |s|;
  }

  /** Membership is untouched by sorting. */
  lemma SortMembers<T>(le: (T, T) -> bool, s: seq<T>, x: T)
    ensures x in Sort(le, s) <==> x in s
  {
    SortElements(le, s);
    assert x in Sort(le, s) <==> x in multiset(Sort(le, s));
    assert x in s <==> x in multiset(s);
  }

  lemma {:induction false} InsertSorted<T(!new)>(le: (T, T) -> bool, x: T, s: seq<T>)
    requires Preorder(le) && Sorted(le, s)
    ensures Sorted(le, Insert(le, x, s))
  {
    if s == [] || le(x, s[0]) {
    } else {
      InsertSorted(le, x, s[1..]);
      var t := Insert(le, x, s[1..]);
      InsertElements(le, x, s[1..]);
      forall j | 0 <= j < |t| ensures le(s[0], t[j]) {
        assert t[j] in multiset(t);
      }
    }
  }

  lemma {:induction false} SortSorted<T(!new)>(le: (T, T) -> bool, s: seq<T>)
    requires Preorder(le)
    ensures Sorted(le, Sort(le, s))
  {
    if s != [] {
      SortSorted(le, s[1..]);
      InsertSorted(le, s[0], Sort(le, s[1..]));
    }
  }

  /** Two sorted arrangements of the same elements are the same sequence, as long as
      elements that tie are equal. */
  lemma {:induction false} SortedUnique<T(!new)>(le: (T, T) -> bool, a: seq<T>, b: seq<T>)
    requires Preorder(le) && Sorted(le, a) && Sorted(le, b)
    requires multiset(a) == multiset(b)
    requires TiesEqual(le, a)
    ensures a == b
  {
    assert |multiset(a)| == |a| && |multiset(b)| == |b|;
    if a != [] {
      SameFirst(le, a, b);
      DropFirst(a);
      DropFirst(b);
      SortedUnique(le, a[1..], b[1..]);
    }
  }

  /** Elements that tie are equal. */
  ghost predicate TiesEqual<T>(le: (T, T) -> bool, s: seq<T>) {
    forall x, y :: x in s && y in s && le(x, y) && le(y, x) ==> x == y
  }

  lemma SameFirst<T(!new)>(le: (T, T) -> bool, a: seq<T>, b: seq<T>)
    requires Preorder(le) && Sorted(le, a) && Sorted(le, b) && a != [] && b != []
    requires multiset(a) == multiset(b)
    requires TiesEqual(le, a)
    ensures a[0] == b[0]
  {
    assert a[0] in multiset(b) && b[0] in multiset(a);
    var i :| 0 <= i < |a| && a[i] == b[0];
    var j :| 0 <= j < |b| && b[j] == a[0];
    assert le(a[0], a[i]) && le(b[0], b[j]);
  }

  lemma DropFirst<T>(s: seq<T>)
    requires s != []
    ensures s == [s[0]] + s[1..] && multiset(s[1..]) == multiset(s) - multiset{s[0]}
  {
    assert s == [s[0]] + s[1..];
  }

  /** Elements that tie with `x`, in order. */
  function Ties<T>(le: (T, T) -> bool, x: T, s: seq<T>): seq<T> {
    if s == [] then []
    else (if le(x, s[0]) && le(s[0], x) then [s[0]] else []) + Ties(le, x, s[1..])
  }

  lemma {:induction false} InsertTies<T(!new)>(le: (T, T) -> bool, x: T, y: T, s: seq<T>)
    requires Preorder(le)
    ensures Ties(le, x, Insert(le, y, s)) == (if le(x, y) && le(y, x) then [y] else []) + Ties(le, x, s)
  {
    if s == [] || le(y, s[0]) {
      assert ([y] + s)[1..] == s;
    } else {
      InsertTies(le, x, y, s[1..]);
      var t := Insert(le, y, s[1..]);
      assert Insert(le, y, s) == [s[0]] + t && ([s[0]] + t)[1..] == t;
      var tieY := if le(x, y) && le(y, x) then [y] else [];
      var tieHead := if le(x, s[0]) && le(s[0], x) then [s[0]] else [];
      assert Ties(le, x, Insert(le, y, s)) == tieHead + (tieY + Ties(le, x, s[1..]));
      // Were both tied with x, transitivity would put y before s[0].
      assert tieY == [] || tieHead == [];
      assert tieHead + (tieY + Ties(le, x, s[1..])) == tieY + (tieHead + Ties(le, x, s[1..]));
    }
  }

  /** The sort is stable: elements that tie keep their input order. */
  lemma {:induction false} SortStable<T(!new)>(le: (T, T) -> bool, x: T, s: seq<T>)
    requires Preorder(le)
    ensures Ties(le, x, Sort(le, s)) == Ties(le, x, s)
  {
    if s != [] {
      SortStable(le, x, s[1..]);
      InsertTies(le, x, s[0], Sort(le, s[1..]));
    }
  }

  lemma {:induction false} TiesConcat<T>(le: (T, T) -> bool, x: T, a: seq<T>, b: seq<T>)
    ensures Ties(le, x, a + b) == Ties(le, x, a) + Ties(le, x, b)
  {
    if a == [] {
      assert a + b == b;
    } else {
      TiesConcat(le, x, a[1..], b);
      assert a + b == [a[0]] + (a[1..] + b) && a == [a[0]] + a[1..];
      TiesCons(le, x, a[0], a[1..] + b);
      TiesCons(le, x, a[0], a[1..]);
    }
  }

  lemma TiesCons<T>(le: (T, T) -> bool, x: T, y: T, s: seq<T>)
    ensures Ties(le, x, [y] + s) == (if le(x, y) && le(y, x) then [y] else []) + Ties(le, x, s)
  {
    assert ([y] + s)[1..] == s;
  }

  lemma CountedTwice<T>(s: seq<T>, i: nat, j: nat)
    requires i < j < |s| && s[i] == s[j]
    ensures multiset(s)[s[i]] >= 2
  {
    assert s == s[..j] + [s[j]] + s[j + 1..];
    assert s[..j][i] == s[i];
  }

  lemma SortKeepsDistinct<T>(le: (T, T) -> bool, s: seq<T>)
    requires forall i, j :: 0 <= i < j < |s| ==> s[i] != s[j]
    ensures forall i, j :: 0 <= i < j < |Sort(le, s)| ==> Sort(le, s)[i] != Sort(le, s)[j]
  {
    var t := Sort(le, s);
    SortElements(le, s);
    forall i, j | 0 <= i < j < |t| ensures t[i] != t[j] {
      if t[i] == t[j] {
        CountedTwice(t, i, j);
        DistinctMultiplicity(s, t[i]);
      }
    }
  }

  // ------------------------------------------------------- map and filter

  /** `s.map(f).filter(Boolean)` for an f that answers None where the source answers null. */
  function MapSome<T, U>(f: T -> Option<U>, s: seq<T>): seq<U> {
    if s == [] then [] else (if f(s[0]).Some? then [f(s[0]).value] else []) + MapSome(f, s[1..])
  }

  lemma {:induction false} MapSomeSplit<T, U>(f: T -> Option<U>, a: seq<T>, b: seq<T>)
    ensures MapSome(f, a + b) == MapSome(f, a) + MapSome(f, b)
  {
    if a == [] {
      assert a + b == b;
    } else {
      var head := if f(a[0]).Some? then [f(a[0]).value] else [];
      MapSomeSplit(f, a[1..], b);
      HeadThen(a, b);
      MapSomeCons(f, a[0], a[1..] + b);
      Regroup(head, MapSome(f, a[1..]), MapSome(f, b));
    }
  }

  lemma HeadThen<T>(a: seq<T>, b: seq<T>)
    requires a != []
    ensures a + b == [a[0]] + (a[1..] + b)
  {
  }

  lemma MapSomeCons<T, U>(f: T -> Option<U>, x: T, s: seq<T>)
    ensures MapSome(f, [x] + s) == (if f(x).Some? then [f(x).value] else []) + MapSome(f, s)
  {
    assert ([x] + s)[1..] == s;
  }

  /** How often a value comes out is at how many positions it is answered. */
  lemma {:induction false} MapSomeCount<T, U>(f: T -> Option<U>, s: seq<T>, y: U)
    ensures multiset(MapSome(f, s))[y] == |AnsweredAt(f, s, y)|
  {
    if s == [] {
      assert AnsweredAt(f, s, y) == {};
    } else {
      var front, x := s[..|s| - 1], s[|s| - 1];
      MapSomeCount(f, front, y);
      AnsweredAtLast(f, front, x, y);
      MapSomeSplit(f, front, [x]);
      MapSomeOne(f, x, y);
      assert s == front + [x];
    }
  }

  ghost function AnsweredAt<T, U>(f: T -> Option<U>, s: seq<T>, y: U): set<int> { set i | 0 <= i < |s| && f(s[i]) == Some(y) }

  lemma AnsweredAtLast<T, U>(f: T -> Option<U>, s: seq<T>, x: T, y: U)
    ensures |AnsweredAt(f, s + [x], y)| == |AnsweredAt(f, s, y)| + if f(x) == Some(y) then 1 else 0
  {
    assert AnsweredAt(f, s + [x], y) == AnsweredAt(f, s, y) + if f(x) == Some(y) then {|s|} else {};
  }

  lemma MapSomeOne<T, U>(f: T -> Option<U>, x: T, y: U)
    ensures multiset(MapSome(f, [x]))[y] == if f(x) == Some(y) then 1 else 0
  {
    assert [x][1..] == [];
    assert MapSome(f, [x]) == if f(x).Some? then [f(x).value] else [];
  }

  lemma RemoveOne<T>(a: seq<T>, b: seq<T>, i: nat)
    requires a != [] && multiset(a) == multiset(b) && i < |b| && b[i] == a[0]
    ensures multiset(a[1..]) == multiset(b[..i] + b[i + 1..])
  {
    assert a == [a[0]] + a[1..];
    assert b == b[..i] + [b[i]] + b[i + 1..];
    assert multiset(a[1..]) == multiset(a) - multiset{a[0]};
    assert multiset(b[..i] + b[i + 1..]) == multiset(b) - multiset{b[i]};
  }

  lemma MiddleOut<U>(x: seq<U>, y: seq<U>, z: seq<U>)
    ensures multiset(x + (y + z)) == multiset(y) + multiset(x + z)
  {
    assert multiset(x + (y + z)) == multiset(x) + multiset(y + z);
    assert multiset(y + z) == multiset(y) + multiset(z);
  }

  lemma MapSomeMiddle<T, U>(f: T -> Option<U>, a: seq<T>, b: seq<T>, c: seq<T>)
    ensures multiset(MapSome(f, a + (b + c))) == multiset(MapSome(f, b)) + multiset(MapSome(f, a + c))
  {
    MapSomeSplit(f, a, b + c);
    MapSomeSplit(f, b, c);
    MapSomeSplit(f, a, c);
    MiddleOut(MapSome(f, a), MapSome(f, b), MapSome(f, c));
  }

  lemma MapSomeRemove<T, U>(f: T -> Option<U>, s: seq<T>, i: nat)
    requires i < |s|
    ensures multiset(MapSome(f, s)) == multiset(MapSome(f, [s[i]])) + multiset(MapSome(f, s[..i] + s[i + 1..]))
  {
    assert s == s[..i] + ([s[i]] + s[i + 1..]);
    MapSomeMiddle(f, s[..i], [s[i]], s[i + 1..]);
  }

  /** A rearrangement of the input rearranges the output. */
  lemma {:induction false} MapSomePermute<T, U>(f: T -> Option<U>, a: seq<T>, b: seq<T>)
    requires multiset(a) == multiset(b)
    ensures multiset(MapSome(f, a)) == multiset(MapSome(f, b))
  {
    assert |multiset(a)| == |a| && |multiset(b)| == |b|;
    if a != [] {
      assert a[0] in multiset(b);
      var i :| 0 <= i < |b| && b[i] == a[0];
      RemoveOne(a, b, i);
      MapSomePermute(f, a[1..], b[..i] + b[i + 1..]);
      MapSomeRemove(f, b, i);
      MapSomeRemove(f, a, 0);
      assert a[..0] + a[1..] == a[1..];
    }
  }

  // ---------------------------------------------------------------- strings

  predicate StrLe(a: string, b: string) {
    a == [] || (b != [] && (a[0] < b[0] || (a[0] == b[0] && StrLe(a[1..], b[1..]))))
  }

  /** a stands before or at b: they agree up to a place where a ends, or where its code unit is the lesser. */
  ghost predicate AgreeUpTo(a: string, b: string, n: nat) {
    n <= |a| && n <= |b| && a[..n] == b[..n] && (n == |a| || (n < |b| && a[n] < b[n]))
  }

  lemma {:induction false} StrLeExactly(a: string, b: string)
    ensures StrLe(a, b) <==> exists n: nat :: AgreeUpTo(a, b, n)
  {
    if a == [] {
      assert AgreeUpTo(a, b, 0);
    } else if b != [] {
      if a[0] < b[0] { assert AgreeUpTo(a, b, 0); }
      StrLeExactly(a[1..], b[1..]);
      if n: nat :| a[0] == b[0] && AgreeUpTo(a[1..], b[1..], n) {
        assert a[..n + 1] == [a[0]] + a[1..][..n] && b[..n + 1] == [b[0]] + b[1..][..n];
        assert AgreeUpTo(a, b, n + 1);
      }
      if n: nat :| n > 0 && AgreeUpTo(a, b, n) {
        assert a[..n][0] == a[0] && b[..n][0] == b[0];
        assert a[1..][..n - 1] == a[..n][1..] && b[1..][..n - 1] == b[..n][1..];
        assert AgreeUpTo(a[1..], b[1..], n - 1);
      }
    }
  }

  lemma {:induction false} StrLeTotal(a: string, b: string)
    ensures StrLe(a, b) || StrLe(b, a)
    ensures StrLe(a, b) && StrLe(b, a) ==> a == b
  {
    if a != [] && b != [] && a[0] == b[0] {
      StrLeTotal(a[1..], b[1..]);
      assert a == [a[0]] + a[1..] && b == [b[0]] + b[1..];
    }
  }

  lemma {:induction false} StrLeTransitive(a: string, b: string, c: string)
    requires StrLe(a, b) && StrLe(b, c)
    ensures StrLe(a, c)
  {
    if a != [] && b != [] && c != [] && a[0] == b[0] == c[0] {
      StrLeTransitive(a[1..], b[1..], c[1..]);
    }
  }

  lemma StrLeIsTotalOrder()
    ensures TotalOrder(StrLe)
  {
    forall x, y ensures (StrLe(x, y) || StrLe(y, x)) && (StrLe(x, y) && StrLe(y, x) ==> x == y) {
      StrLeTotal(x, y);
    }
    forall x, y, z | StrLe(x, y) && StrLe(y, z) ensures StrLe(x, z) {
      StrLeTransitive(x, y, z);
    }
  }

  // ------------------------------------------------- sets as sorted sequences

  /** Insert into a duplicate-free sorted list: a JavaScript Set followed by `sort()`. */
  function SortedSet<T(==)>(le: (T, T) -> bool, s: seq<T>): seq<T> {
    Sort(le, Distinct(s))
  }

  /** First occurrences only: the iteration order of `new Set(s)`. */
  function Distinct<T(==)>(s: seq<T>): seq<T> {
    if s == [] then []
    else var rest := Distinct(s[..|s| - 1]); var x := s[|s| - 1]; if x in rest then rest else rest + [x]
  }

  lemma {:induction false} DistinctMembers<T>(s: seq<T>)
    ensures forall x :: x in Distinct(s) <==> x in s
    ensures forall i, j :: 0 <= i < j < |Distinct(s)| ==> Distinct(s)[i] != Distinct(s)[j]
  {
    if s != [] {
      DistinctMembers(s[..|s| - 1]);
      assert s == s[..|s| - 1] + [s[|s| - 1]];
    }
  }

  lemma {:induction false} DistinctMultiplicity<T>(s: seq<T>, x: T)
    requires forall i, j :: 0 <= i < j < |s| ==> s[i] != s[j]
    ensures multiset(s)[x] == if x in s then 1 else 0
  {
    if s != [] {
      DistinctMultiplicity(s[1..], x);
      assert s == [s[0]] + s[1..];
    }
  }

  /** The sorted set depends only on which elements occur. */
  lemma SortedSetByMembers<T(!new)>(le: (T, T) -> bool, a: seq<T>, b: seq<T>)
    requires TotalOrder(le)
    requires forall x :: x in a <==> x in b
    ensures SortedSet(le, a) == SortedSet(le, b)
  {
    DistinctMembers(a);
    DistinctMembers(b);
    forall x ensures multiset(Distinct(a))[x] == multiset(Distinct(b))[x] {
      DistinctMultiplicity(Distinct(a), x);
      DistinctMultiplicity(Distinct(b), x);
    }
    assert multiset(Distinct(a)) == multiset(Distinct(b));
    SortElements(le, Distinct(a));
    SortElements(le, Distinct(b));
    SortSorted(le, Distinct(a));
    SortSorted(le, Distinct(b));
    SortedUnique(le, SortedSet(le, a), SortedSet(le, b));
  }

  lemma SortedSetMembers<T(!new)>(le: (T, T) -> bool, s: seq<T>, x: T)
    requires TotalOrder(le)
    ensures x in SortedSet(le, s) <==> x in s
  {
    DistinctMembers(s);
    SortMembers(le, Distinct(s), x);
  }

  /** The sorted set is the one ascending sequence of those elements, each once. */
  lemma SortedSetExactly<T(!new)>(le: (T, T) -> bool, s: seq<T>, t: seq<T>)
    requires TotalOrder(le)
    ensures SortedSet(le, s) == t <==>
              && (forall i, j :: 0 <= i < j < |t| ==> le(t[i], t[j]) && t[i] != t[j])
              && forall x :: x in t <==> x in s
  {
    DistinctMembers(s);
    SortSorted(le, Distinct(s));
    SortKeepsDistinct(le, Distinct(s));
    forall x ensures x in SortedSet(le, s) <==> x in s { SortedSetMembers(le, s, x); }
    if (forall i, j :: 0 <= i < j < |t| ==> le(t[i], t[j]) && t[i] != t[j]) && forall x :: x in t <==> x in s {
      forall x ensures multiset(t)[x] == multiset(SortedSet(le, s))[x] {
        DistinctMultiplicity(t, x);
        DistinctMultiplicity(SortedSet(le, s), x);
      }
      assert multiset(t) == multiset(SortedSet(le, s));
      SortedUnique(le, t, SortedSet(le, s));
    }
  }
}
