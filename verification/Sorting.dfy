/**
 A sort contract shared by the models: the library sorts of the program are stable sorts by a total
 order, so their result is the one sorted sequence with the given elements.
 */
module Sorting {

  ghost predicate TotalOrder<T(!new)>(le: (T, T) -> bool) {
    && (forall x, y :: le(x, y) || le(y, x))
    && (forall x, y :: le(x, y) && le(y, x) ==> x == y)
    && (forall x, y, z :: le(x, y) && le(y, z) ==> le(x, z))
  }

  ghost predicate Sorted<T>(s: seq<T>, le: (T, T) -> bool) {
    forall i, j | 0 <= i < j < |s| :: le(s[i], s[j])
  }

  function Insert<T(!new)>(x: T, s: seq<T>, le: (T, T) -> bool): (r: seq<T>)
    requires TotalOrder(le) && Sorted(s, le)
    ensures Sorted(r, le) && multiset(r) == multiset(s) + multiset{x}
  {
    if s == [] then [x]
    else if le(x, s[0]) then
      InsertFirst(x, s, le);
      [x] + s
    else
      var r := Insert(x, s[1..], le);
      InsertLater(x, s, r, le);
      [s[0]] + r
  }

  lemma InsertFirst<T(!new)>(x: T, s: seq<T>, le: (T, T) -> bool)
    requires TotalOrder(le) && Sorted(s, le) && s != [] && le(x, s[0])
    ensures Sorted([x] + s, le)
  {
    forall j | 0 <= j < |s|
      ensures le(x, s[j])
    {
      assert j > 0 ==> le(s[0], s[j]);
    }
  }

  lemma InsertLater<T(!new)>(x: T, s: seq<T>, r: seq<T>, le: (T, T) -> bool)
    requires TotalOrder(le) && Sorted(s, le) && s != [] && !le(x, s[0])
    requires Sorted(r, le) && multiset(r) == multiset(s[1..]) + multiset{x}
    ensures Sorted([s[0]] + r, le) && multiset([s[0]] + r) == multiset(s) + multiset{x}
  {
    assert s == [s[0]] + s[1..];
    forall j | 0 <= j < |r|
      ensures le(s[0], r[j])
    {
      assert r[j] in multiset(r);
      if r[j] != x {
        assert r[j] in s[1..];
      }
    }
  }

  function Sort<T(!new)>(s: seq<T>, le: (T, T) -> bool): (r: seq<T>)
    requires TotalOrder(le)
    ensures Sorted(r, le) && multiset(r) == multiset(s)
  {
    if s == [] then []
    else
      assert s == [s[0]] + s[1..];
      Insert(s[0], Sort(s[1..], le), le)
  }

  lemma SameFirst<T(!new)>(a: seq<T>, b: seq<T>, le: (T, T) -> bool)
    requires TotalOrder(le) && Sorted(a, le) && Sorted(b, le) && multiset(a) == multiset(b) && a != [] && b != []
    ensures a[0] == b[0]
  {
    assert a[0] in multiset(b) && b[0] in multiset(a);
    var i :| 0 <= i < |a| && a[i] == b[0];
    var j :| 0 <= j < |b| && b[j] == a[0];
    assert i > 0 ==> le(a[0], a[i]);
    assert j > 0 ==> le(b[0], b[j]);
  }

  lemma TailOf<T>(a: seq<T>, le: (T, T) -> bool)
    requires Sorted(a, le) && a != []
    ensures Sorted(a[1..], le) && multiset(a[1..]) == multiset(a) - multiset{a[0]} && a == [a[0]] + a[1..]
  {
    assert a == [a[0]] + a[1..];
  }

  // A sorted sequence is determined by its elements.
  lemma {:induction false} SortedUnique<T(!new)>(a: seq<T>, b: seq<T>, le: (T, T) -> bool)
    requires TotalOrder(le) && Sorted(a, le) && Sorted(b, le) && multiset(a) == multiset(b)
    ensures a == b
  {
    hide TotalOrder, Sorted;
    assert |a| == |multiset(a)| == |multiset(b)| == |b|;
    if a != [] {
      SameFirst(a, b, le);
      TailOf(a, le);
      TailOf(b, le);
      SortedUnique(a[1..], b[1..], le);
    }
  }

  lemma SortIgnoresOrder<T(!new)>(a: seq<T>, b: seq<T>, le: (T, T) -> bool)
    requires TotalOrder(le) && multiset(a) == multiset(b)
    ensures Sort(a, le) == Sort(b, le)
  {
    SortedUnique(Sort(a, le), Sort(b, le), le);
  }

  // ---------- strings, compared character by character ----------

  predicate StrLe(x: string, y: string) {
    x == [] || (y != [] && (x[0] < y[0] || (x[0] == y[0] && StrLe(x[1..], y[1..]))))
  }

  // The first k characters agree, and the next one of x is the smaller.
  predicate SmallerAt(x: string, y: string, k: nat) {
    k < |x| && k < |y| && x[..k] == y[..k] && x[k] < y[k]
  }

  lemma SmallerInTail(c: char, x: string, y: string, k: nat)
    ensures SmallerAt([c] + x, [c] + y, k + 1) <==> SmallerAt(x, y, k)
    ensures !SmallerAt([c] + x, [c] + y, 0)
    ensures [c] + x <= [c] + y <==> x <= y
  {
    if k < |x| && k < |y| {
      assert ([c] + x)[..k + 1] == [c] + x[..k] && ([c] + y)[..k + 1] == [c] + y[..k];
      assert x[..k] == ([c] + x[..k])[1..] && y[..k] == ([c] + y[..k])[1..];
    }
    if [c] + x <= [c] + y {
      assert ([c] + y)[..|x| + 1][1..] == y[..|x|];
      assert ([c] + x)[1..] == x;
    }
  }

  lemma FirstDiffers(x: string, y: string, k: nat)
    requires x != [] && y != [] && x[0] != y[0]
    ensures SmallerAt(x, y, k) <==> k == 0 && x[0] < y[0]
    ensures !(x <= y)
  {
    if 0 < k < |x| && k < |y| {
      assert x[..k][0] == x[0] && y[..k][0] == y[0];
    }
    assert x[..0] == y[..0];
  }

  // The order is that of the first character in which the two differ, and a prefix comes first.
  lemma {:induction false} StrLePlainly(x: string, y: string)
    ensures StrLe(x, y) <==> x <= y || exists k: nat :: SmallerAt(x, y, k)
  {
    if x != [] && y != [] {
      if x[0] == y[0] {
        var c, x', y' := x[0], x[1..], y[1..];
        assert x == [c] + x' && y == [c] + y';
        StrLePlainly(x', y');
        assert StrLe(x, y) <==> StrLe(x', y');
        hide SmallerAt, StrLe;
        SmallerInTail(c, x', y', 0);
        if k: nat :| SmallerAt(x', y', k) {
          SmallerInTail(c, x', y', k);
        }
        if k: nat :| SmallerAt(x, y, k) {
          if k > 0 {
            SmallerInTail(c, x', y', k - 1);
          }
        }
      } else {
        FirstDiffers(x, y, 0);
        forall k: nat {
          FirstDiffers(x, y, k);
        }
      }
    }
  }

  lemma {:induction false} StrLeTotal(x: string, y: string)
    ensures StrLe(x, y) || StrLe(y, x)
    ensures StrLe(x, y) && StrLe(y, x) ==> x == y
  {
    if x != [] && y != [] && x[0] == y[0] {
      StrLeTotal(x[1..], y[1..]);
      assert x == [x[0]] + x[1..] && y == [y[0]] + y[1..];
    }
  }

  lemma {:induction false} StrLeTransitive(x: string, y: string, z: string)
    requires StrLe(x, y) && StrLe(y, z)
    ensures StrLe(x, z)
  {
    if x != [] && x[0] == y[0] == z[0] {
      StrLeTransitive(x[1..], y[1..], z[1..]);
    }
  }

  lemma StrLeOrders()
    ensures TotalOrder(StrLe)
  {
    forall x, y
      ensures (StrLe(x, y) || StrLe(y, x)) && (StrLe(x, y) && StrLe(y, x) ==> x == y)
    {
      StrLeTotal(x, y);
    }
    forall x, y, z | StrLe(x, y) && StrLe(y, z)
      ensures StrLe(x, z)
    {
      StrLeTransitive(x, y, z);
    }
  }
}
