/** Python's stable sort, as far as its callers can tell. */
module Sorting {

  ghost predicate TotalPreorder<T(!new)>(le: (T, T) -> bool) {
    (forall a, b :: le(a, b) || le(b, a)) && (forall a, b, c :: le(a, b) && le(b, c) ==> le(a, c))
  }

  predicate Sorted<T>(le: (T, T) -> bool, xs: seq<T>) {
    forall i, j :: 0 <= i < j < |xs| ==> le(xs[i], xs[j])
  }

  function Insert<T>(le: (T, T) -> bool, x: T, xs: seq<T>): seq<T> {
    if xs == [] || !le(xs[|xs| - 1], x) then (if xs == [] then [x] else Insert(le, x, xs[..|xs| - 1]) + [xs[|xs| - 1]])
    else xs + [x]
  }

  /** `sorted(xs, key=...)`: each element goes behind those it need not go before. */
  function StableSort<T>(le: (T, T) -> bool, xs: seq<T>): seq<T> {
    if xs == [] then [] else Insert(le, xs[|xs| - 1], StableSort(le, xs[..|xs| - 1]))
  }

  /** The elements that tie with `k`, in their order. */
  function Ties<T>(le: (T, T) -> bool, k: T, xs: seq<T>): seq<T> {
    if xs == [] then []
    else Ties(le, k, xs[..|xs| - 1]) +
         if le(k, xs[|xs| - 1]) && le(xs[|xs| - 1], k) then [xs[|xs| - 1]] else []
  }

  lemma {:induction false} InsertKeeps<T>(le: (T, T) -> bool, x: T, xs: seq<T>)
    ensures multiset(Insert(le, x, xs)) == multiset(xs) + multiset{x}
    decreases |xs|
  {
    if xs != [] {
      var front, last := xs[..|xs| - 1], xs[|xs| - 1];
      assert xs == front + [last];
      InsertKeeps(le, x, front);
    }
  }

  /** A last element that none goes behind keeps a list sorted. */
  lemma SortedAppend<T>(le: (T, T) -> bool, ys: seq<T>, last: T)
    requires Sorted(le, ys) && forall i :: 0 <= i < |ys| ==> le(ys[i], last)
    ensures Sorted(le, ys + [last])
  {
  }

  lemma {:induction false} InsertSorted<T(!new)>(le: (T, T) -> bool, x: T, xs: seq<T>)
    requires TotalPreorder(le) && Sorted(le, xs)
    ensures Sorted(le, Insert(le, x, xs))
    ensures multiset(Insert(le, x, xs)) == multiset(xs) + multiset{x}
    decreases |xs|
  {
    InsertKeeps(le, x, xs);
    if xs != [] {
      var front, last := xs[..|xs| - 1], xs[|xs| - 1];
      if !le(last, x) {
        InsertSorted(le, x, front);
        var ys := Insert(le, x, front);
        forall i | 0 <= i < |ys|
          ensures le(ys[i], last)
        {
          assert ys[i] in multiset(front) + multiset{x};
          assert ys[i] == x || ys[i] in front;
        }
        SortedAppend(le, ys, last);
      } else {
        forall i | 0 <= i < |xs|
          ensures le(xs[i], x)
        {
          assert i < |front| ==> le(xs[i], last);
        }
        SortedAppend(le, xs, x);
      }
    }
  }

  lemma {:induction false} InsertStable<T(!new)>(le: (T, T) -> bool, x: T, xs: seq<T>, k: T)
    requires TotalPreorder(le) && Sorted(le, xs)
    ensures Ties(le, k, Insert(le, x, xs)) == Ties(le, k, xs + [x])
    decreases |xs|
  {
    if xs == [] {
      assert xs + [x] == [x];
    } else if !le(xs[|xs| - 1], x) {
      var front, last := xs[..|xs| - 1], xs[|xs| - 1];
      InsertStable(le, x, front, k);
      TiesAppend(le, k, front, x);
      TiesAppend(le, k, Insert(le, x, front), last);
      TiesAppend(le, k, xs, x);
    }
  }

  lemma TiesAppend<T>(le: (T, T) -> bool, k: T, xs: seq<T>, x: T)
    ensures Ties(le, k, xs + [x]) == Ties(le, k, xs) + if le(k, x) && le(x, k) then [x] else []
  {
    assert (xs + [x])[..|xs|] == xs;
  }

  /** The sort orders, keeps every element, and leaves ties in their order. */
  lemma {:induction false} StableSortSorts<T(!new)>(le: (T, T) -> bool, xs: seq<T>)
    requires TotalPreorder(le)
    ensures Sorted(le, StableSort(le, xs)) && multiset(StableSort(le, xs)) == multiset(xs)
    ensures forall k :: Ties(le, k, StableSort(le, xs)) == Ties(le, k, xs)
    decreases |xs|
  {
    if xs != [] {
      var front, last := xs[..|xs| - 1], xs[|xs| - 1];
      assert xs == front + [last];
      StableSortSorts(le, front);
      InsertSorted(le, last, StableSort(le, front));
      forall k
        ensures Ties(le, k, StableSort(le, xs)) == Ties(le, k, xs)
      {
        InsertStable(le, last, StableSort(le, front), k);
      }
    }
  }

  lemma {:induction false} TieBelowLast<T(!new)>(le: (T, T) -> bool, k: T, xs: seq<T>)
    requires TotalPreorder(le) && Sorted(le, xs) && Ties(le, k, xs) != []
    ensures xs != [] && le(k, xs[|xs| - 1])
    decreases |xs|
  {
    var front, last := xs[..|xs| - 1], xs[|xs| - 1];
    if !(le(k, last) && le(last, k)) {
      TieBelowLast(le, k, front);
      assert le(front[|front| - 1], last);
    }
  }

  lemma LastTies<T(!new)>(le: (T, T) -> bool, xs: seq<T>, k: T)
    requires TotalPreorder(le) && xs != [] && le(k, xs[|xs| - 1]) && le(xs[|xs| - 1], k)
    ensures Ties(le, k, xs) != [] && Ties(le, k, xs)[|Ties(le, k, xs)| - 1] == xs[|xs| - 1]
  {
  }

  lemma LastsEqual<T(!new)>(le: (T, T) -> bool, xs: seq<T>, ys: seq<T>)
    requires TotalPreorder(le) && Sorted(le, xs) && Sorted(le, ys) && xs != []
    requires forall k :: Ties(le, k, xs) == Ties(le, k, ys)
    ensures ys != [] && xs[|xs| - 1] == ys[|ys| - 1]
  {
    var x := xs[|xs| - 1];
    assert le(x, x);
    LastTies(le, xs, x);
    TieBelowLast(le, x, ys);
    var y := ys[|ys| - 1];
    assert le(y, y);
    LastTies(le, ys, y);
    TieBelowLast(le, y, xs);
    LastTies(le, ys, x);
  }

  /** Nothing else does: two sorted sequences with the same ties are the same. */
  lemma {:induction false} StableSortUnique<T(!new)>(le: (T, T) -> bool, xs: seq<T>, ys: seq<T>)
    requires TotalPreorder(le) && Sorted(le, xs) && Sorted(le, ys)
    requires forall k :: Ties(le, k, xs) == Ties(le, k, ys)
    ensures xs == ys
    decreases |xs|
  {
    if xs == [] {
      if ys != [] {
        LastsEqual(le, ys, xs);
      }
    } else {
      LastsEqual(le, xs, ys);
      var x := xs[|xs| - 1];
      var front, fore := xs[..|xs| - 1], ys[..|ys| - 1];
      assert xs == front + [x] && ys == fore + [x];
      forall k
        ensures Ties(le, k, front) == Ties(le, k, fore)
      {
        assert Ties(le, k, xs) == Ties(le, k, ys);
        LastOff(le, k, front, fore, x);
      }
      StableSortUnique(le, front, fore);
    }
  }

  lemma LastOff<T>(le: (T, T) -> bool, k: T, xs: seq<T>, ys: seq<T>, x: T)
    ensures Ties(le, k, xs + [x]) == Ties(le, k, ys + [x]) ==> Ties(le, k, xs) == Ties(le, k, ys)
  {
    var a, b := Ties(le, k, xs), Ties(le, k, ys);
    if a + [x] == b + [x] {
      assert (a + [x])[..|a|] == a && (b + [x])[..|b|] == b;
    }
  }

  // ---------------------------------------------------------------- strings by code points

  predicate StrLe(a: string, b: string) {
    a == "" || (b != "" && (a[0] < b[0] || (a[0] == b[0] && StrLe(a[1..], b[1..]))))
  }

  /** The order of Python's strings: by the first code point that differs, a prefix before what it begins. */
  lemma {:induction false} StrLeExact(a: string, b: string)
    ensures StrLe(a, b) <==>
      (|a| <= |b| && a == b[..|a|]) || exists i :: 0 <= i < |a| && i < |b| && a[..i] == b[..i] && a[i] < b[i]
    decreases |a|
  {
    if a != "" && b != "" {
      if a[0] != b[0] {
        assert a[0] < b[0] ==> a[..0] == b[..0];
        FirstDiffers(a, b);
      } else {
        StrLeExact(a[1..], b[1..]);
        OneFurther(a, b);
      }
    }
  }

  lemma FirstDiffers(a: string, b: string)
    requires a != "" && b != "" && a[0] != b[0]
    ensures forall i :: 0 < i < |a| && i < |b| ==> a[..i] != b[..i]
    ensures !(|a| <= |b| && a == b[..|a|])
  {
    forall i | 0 < i < |a| && i < |b|
      ensures a[..i] != b[..i]
    {
      assert a[..i][0] != b[..i][0];
    }
  }

  lemma OneFurther(a: string, b: string)
    requires a != "" && b != "" && a[0] == b[0]
    ensures (|a| <= |b| && a == b[..|a|]) <==> (|a[1..]| <= |b[1..]| && a[1..] == b[1..][..|a[1..]|])
    ensures (exists i :: 0 <= i < |a| && i < |b| && a[..i] == b[..i] && a[i] < b[i]) <==>
      exists i :: 0 <= i < |a[1..]| && i < |b[1..]| && a[1..][..i] == b[1..][..i] && a[1..][i] < b[1..][i]
  {
    assert a == [a[0]] + a[1..] && b == [b[0]] + b[1..];
    if |a| <= |b| {
      assert b[..|a|] == [b[0]] + b[1..][..|a[1..]|];
    }
    if i :| 0 <= i < |a| && i < |b| && a[..i] == b[..i] && a[i] < b[i] {
      assert i > 0 && a[1..][..i - 1] == a[..i][1..] && b[1..][..i - 1] == b[..i][1..] && a[1..][i - 1] < b[1..][i - 1];
    }
    if i :| 0 <= i < |a[1..]| && i < |b[1..]| && a[1..][..i] == b[1..][..i] && a[1..][i] < b[1..][i] {
      assert a[..i + 1] == [a[0]] + a[1..][..i] && b[..i + 1] == [b[0]] + b[1..][..i] && a[i + 1] < b[i + 1];
    }
  }

  lemma {:induction false} StrLeTotal(a: string, b: string)
    ensures StrLe(a, b) || StrLe(b, a)
    ensures StrLe(a, b) && StrLe(b, a) ==> a == b
    decreases |a|
  {
    if a != "" && b != "" {
      StrLeTotal(a[1..], b[1..]);
      assert a == [a[0]] + a[1..] && b == [b[0]] + b[1..];
    }
  }

  lemma {:induction false} StrLeTrans(a: string, b: string, c: string)
    requires StrLe(a, b) && StrLe(b, c)
    ensures StrLe(a, c)
    decreases |a|
  {
    if a != "" && a[0] == b[0] == c[0] {
      StrLeTrans(a[1..], b[1..], c[1..]);
    }
  }

  lemma StringsOrdered()
    ensures TotalPreorder(StrLe)
  {
    forall a: string, b: string
      ensures StrLe(a, b) || StrLe(b, a)
    {
      StrLeTotal(a, b);
    }
    forall a: string, b: string, c: string | StrLe(a, b) && StrLe(b, c)
      ensures StrLe(a, c)
    {
      StrLeTrans(a, b, c);
    }
  }
}
