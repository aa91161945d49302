/** Sequence helpers shared by the key index, the waiter queue and the sweeps. */
module Seqs {

  ghost predicate Distinct<T>(s: seq<T>) {
    forall i, j :: 0 <= i < j < |s| ==> s[i] != s[j]
  }

  /** `s` with every occurrence of `x` taken out, the others kept in order. */
  function Without<T(==)>(s: seq<T>, x: T): (r: seq<T>)
    ensures |r| <= |s|
  {
    if s == [] then []
    else if s[0] == x then Without(s[1..], x)
    else [s[0]] + Without(s[1..], x)
  }

  lemma {:induction false} WithoutMembers<T>(s: seq<T>, x: T)
    ensures forall y :: y in Without(s, x) <==> y in s && y != x
  {
    if s != [] {
      WithoutMembers(s[1..], x);
      assert s == [s[0]] + s[1..];
    }
  }

  lemma {:induction false} WithoutAppend<T>(s: seq<T>, y: T, x: T)
    ensures Without(s + [y], x) == if y == x then Without(s, x) else Without(s, x) + [y]
  {
    if s == [] {
      assert [y][1..] == [];
    } else {
      assert (s + [y])[1..] == s[1..] + [y];
      WithoutAppend(s[1..], y, x);
    }
  }

  lemma {:induction false} WithoutDistinct<T>(s: seq<T>, x: T)
    requires Distinct(s)
    ensures Distinct(Without(s, x))
  {
    if s != [] {
      assert Distinct(s[1..]);
      WithoutDistinct(s[1..], x);
      WithoutMembers(s[1..], x);
      assert s[0] !in s[1..];
      if s[0] != x {
        var w := Without(s[1..], x);
        assert Without(s, x) == [s[0]] + w;
        forall i, j | 0 <= i < j < |[s[0]] + w| ensures ([s[0]] + w)[i] != ([s[0]] + w)[j] {
          if i == 0 { assert ([s[0]] + w)[j] == w[j - 1] && w[j - 1] in w; }
        }
      }
    }
  }

  /** Removing the head of a duplicate-free sequence leaves exactly its tail. */
  lemma WithoutHead<T>(s: seq<T>)
    requires s != [] && Distinct(s)
    ensures Without(s, s[0]) == s[1..]
  {
    WithoutAbsent(s[1..], s[0]);
  }

  lemma {:induction false} WithoutAbsent<T>(s: seq<T>, x: T)
    requires x !in s
    ensures Without(s, x) == s
  {
    if s != [] {
      WithoutAbsent(s[1..], x);
      assert s == [s[0]] + s[1..];
    }
  }

  /** The elements of `s` from last to first. */
  function Reversed<T>(s: seq<T>): (r: seq<T>)
    ensures |r| == |s|
  {
    if s == [] then [] else [s[|s| - 1]] + Reversed(s[..|s| - 1])
  }

  lemma {:induction false} ReversedAt<T>(s: seq<T>, k: nat)
    requires k < |s|
    ensures Reversed(s)[k] == s[|s| - 1 - k]
  {
    if k > 0 {
      ReversedAt(s[..|s| - 1], k - 1);
    }
  }

  lemma ReversedMembers<T>(s: seq<T>)
    ensures forall x :: x in Reversed(s) <==> x in s
  {
    forall x ensures x in Reversed(s) <==> x in s {
      if x in s {
        var i :| 0 <= i < |s| && s[i] == x;
        ReversedAt(s, |s| - 1 - i);
      }
      if x in Reversed(s) {
        var i :| 0 <= i < |s| && Reversed(s)[i] == x;
        ReversedAt(s, i);
      }
    }
  }

  /**
   * Lists a finite set in an order the host chooses, as `Object.keys` does
   * for the own properties of an object.
   */
  method Enumerate<T>(s: set<T>) returns (ks: seq<T>)
    ensures Distinct(ks)
    ensures forall x :: x in ks <==> x in s
    ensures |ks| == |s|
  {
    ks := [];
    var rest := s;
    while rest != {}
      invariant Distinct(ks)
      invariant forall x :: x in ks <==> x in s && x !in rest
      invariant rest <= s
      invariant |ks| + |rest| == |s|
      decreases rest
    {
      var x :| x in rest;
      ks := ks + [x];
      rest := rest - {x};
    }
  }
}
