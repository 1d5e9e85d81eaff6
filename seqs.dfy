/** Generic facts about sequences used by the listing-based models. */
module Seqs {

  /** The elements at positions `i` and `j` differ. Stating `NoDup` through it keeps
      the solver from instantiating the quantifier on every index term it meets. */
  predicate DifferentAt<T(==)>(s: seq<T>, i: int, j: int)
    requires 0 <= i < |s| && 0 <= j < |s|
  {
    s[i] != s[j]
  }

  /** No element occurs twice. */
  predicate NoDup<T(==)>(s: seq<T>)
  {
    forall i, j :: 0 <= i < j < |s| ==> DifferentAt(s, i, j)
  }

  /** In a duplicate-free sequence, the element at `i` occurs neither before nor after `i`. */
  lemma Isolated<T>(s: seq<T>, i: nat)
    requires NoDup(s) && i < |s|
    ensures s[i] !in s[..i] && s[i] !in s[i + 1..]
    ensures s[i..] == [s[i]] + s[i + 1..]
  {
    forall j | 0 <= j < i
      ensures s[..i][j] != s[i]
    {
      assert DifferentAt(s, j, i);
    }
    forall j | i + 1 <= j < |s|
      ensures s[j] != s[i]
    {
      assert DifferentAt(s, i, j);
    }
  }

  lemma NoDupTail<T>(s: seq<T>)
    requires NoDup(s) && s != []
    ensures NoDup(s[1..])
  {
    forall i, j | 0 <= i < j < |s| - 1
      ensures DifferentAt(s[1..], i, j)
    {
      assert DifferentAt(s, i + 1, j + 1);
    }
  }

  lemma NoDupSnoc<T>(s: seq<T>, x: T)
    requires NoDup(s) && x !in s
    ensures NoDup(s + [x])
  {
    var r := s + [x];
    forall i, j | 0 <= i < j < |r|
      ensures DifferentAt(r, i, j)
    {
      if j < |s| {
        assert DifferentAt(s, i, j);
      } else {
        assert r[i] == s[i];
      }
    }
  }

  /** Extending a slice of `b` by one element, behind a fixed prefix `a`. */
  lemma SnocSlice<T>(a: seq<T>, b: seq<T>, j: nat)
    requires j < |b|
    ensures a + b[..j + 1] == a + b[..j] + [b[j]]
  {
    assert b[..j + 1] == b[..j] + [b[j]];
  }

  /** `s` with every occurrence of `x` removed, the rest in order. */
  function Without<T(==)>(s: seq<T>, x: T): (r: seq<T>)
    ensures |r| <= |s|
  {
    if s == [] then []
    else if s[0] == x then Without(s[1..], x)
    else [s[0]] + Without(s[1..], x)
  }

  /** `Without(s, x)` holds exactly the elements of `s` other than `x`. */
  lemma {:induction false} WithoutMembers<T>(s: seq<T>, x: T, y: T)
    ensures y in Without(s, x) <==> y in s && y != x
  {
    if s != [] {
      WithoutMembers(s[1..], x, y);
      assert s == [s[0]] + s[1..];
    }
  }

  lemma {:induction false} WithoutAbsent<T>(s: seq<T>, x: T)
    requires x !in s
    ensures Without(s, x) == s
  {
    if s != [] {
      assert s == [s[0]] + s[1..];
      WithoutAbsent(s[1..], x);
    }
  }

  lemma {:induction false} WithoutAppend<T>(a: seq<T>, b: seq<T>, x: T)
    ensures Without(a + b, x) == Without(a, x) + Without(b, x)
  {
    if a == [] {
      assert a + b == b;
    } else {
      assert (a + b)[1..] == a[1..] + b;
      WithoutAppend(a[1..], b, x);
    }
  }

  /** Removing the one occurrence of `x` from `a + [x] + c`. */
  lemma WithoutSingle<T>(a: seq<T>, x: T, c: seq<T>)
    requires x !in a && x !in c
    ensures Without(a + [x] + c, x) == a + c
  {
    WithoutAppend(a + [x], c, x);
    WithoutAppend(a, [x], x);
    WithoutAbsent(a, x);
    WithoutAbsent(c, x);
    assert Without([x], x) == [];
    assert a + [] == a;
  }

  lemma {:induction false} NoDupWithout<T>(s: seq<T>, x: T)
    requires NoDup(s)
    ensures NoDup(Without(s, x))
  {
    if s != [] {
      NoDupTail(s);
      NoDupWithout(s[1..], x);
      Isolated(s, 0);
      if s[0] != x {
        var rest := Without(s[1..], x);
        WithoutMembers(s[1..], x, s[0]);
        assert s[0] !in rest;
        var r := [s[0]] + rest;
        forall i, j | 0 <= i < j < |r|
          ensures DifferentAt(r, i, j)
        {
          if i == 0 {
            assert r[j] == rest[j - 1];
          } else {
            assert DifferentAt(rest, i - 1, j - 1);
          }
        }
      }
    }
  }

  /** How often `x` occurs in `s`. */
  function Count<T(==)>(s: seq<T>, x: T): (n: nat)
    ensures n <= |s|
  {
    if s == [] then 0
    else Count(s[..|s| - 1], x) + (if s[|s| - 1] == x then 1 else 0)
  }

  /** `x` occurs in `s` exactly when it is counted at least once. */
  lemma {:induction false} CountPositive<T>(s: seq<T>, x: T)
    ensures Count(s, x) > 0 <==> x in s
  {
    if s != [] {
      CountPositive(s[..|s| - 1], x);
      assert s == s[..|s| - 1] + [s[|s| - 1]];
    }
  }

  lemma CountStep<T>(s: seq<T>, k: nat, x: T)
    requires k < |s|
    ensures Count(s[..k + 1], x) == Count(s[..k], x) + (if s[k] == x then 1 else 0)
  {
    assert s[..k + 1][..k] == s[..k];
  }

  /** `n` copies of `x`. */
  function Repeat<T>(x: T, n: nat): (r: seq<T>)
    ensures |r| == n
  {
    if n == 0 then [] else Repeat(x, n - 1) + [x]
  }

  /** The only element of `n` copies of `x` is `x`, present once `n` is positive. */
  lemma {:induction false} RepeatMembers<T>(x: T, n: nat, y: T)
    ensures y in Repeat(x, n) <==> n > 0 && y == x
  {
    if n > 0 {
      RepeatMembers(x, n - 1, y);
    }
  }

  lemma {:induction false} RepeatAdd<T>(x: T, a: nat, b: nat)
    ensures Repeat(x, a) + Repeat(x, b) == Repeat(x, a + b)
  {
    if b > 0 {
      RepeatAdd(x, a, b - 1);
    }
  }
}
