/** Datatypes and sequence functions shared by the models. */
module Basics {

  /** An optional value. */
  datatype Option<+T> = None | Some(value: T)

  /** The value a map holds for a key, if any. */
  function Get<K, V>(m: map<K, V>, k: K): Option<V> {
    if k in m then Some(m[k]) else None
  }

  // ---------------------------------------------------------------------
  // Sequences
  // ---------------------------------------------------------------------

  function Reverse<T>(xs: seq<T>): (r: seq<T>)
    ensures |r| == |xs|
  {
    if xs == [] then [] else Reverse(xs[1..]) + [xs[0]]
  }

  lemma {:induction false} ReverseConcat<T>(xs: seq<T>, ys: seq<T>)
    ensures Reverse(xs + ys) == Reverse(ys) + Reverse(xs)
  {
    if xs == [] {
      assert xs + ys == ys && Reverse(ys) + [] == Reverse(ys);
    } else {
      assert (xs + ys)[1..] == xs[1..] + ys;
      ReverseConcat(xs[1..], ys);
    }
  }

  lemma {:induction false} ReverseAt<T>(xs: seq<T>, i: nat)
    requires i < |xs|
    ensures Reverse(xs)[i] == xs[|xs| - 1 - i]
  {
    if i < |xs| - 1 {
      ReverseAt(xs[1..], i);
    }
  }

  /** The elements that satisfy `p`, in order. */
  function Keep<T>(p: T -> bool, xs: seq<T>): seq<T> {
    if xs == [] then [] else (if p(xs[0]) then [xs[0]] else []) + Keep(p, xs[1..])
  }

  lemma {:induction false} KeepConcat<T>(p: T -> bool, xs: seq<T>, ys: seq<T>)
    ensures Keep(p, xs + ys) == Keep(p, xs) + Keep(p, ys)
  {
    if xs == [] {
      assert xs + ys == ys && [] + Keep(p, ys) == Keep(p, ys);
    } else {
      var head := if p(xs[0]) then [xs[0]] else [];
      assert (xs + ys)[0] == xs[0] && (xs + ys)[1..] == xs[1..] + ys;
      KeepConcat(p, xs[1..], ys);
      assert head + (Keep(p, xs[1..]) + Keep(p, ys)) == (head + Keep(p, xs[1..])) + Keep(p, ys);
    }
  }

  lemma {:induction false} KeepReverse<T>(p: T -> bool, xs: seq<T>)
    ensures Keep(p, Reverse(xs)) == Reverse(Keep(p, xs))
  {
    if xs != [] {
      KeepConcat(p, Reverse(xs[1..]), [xs[0]]);
      KeepReverse(p, xs[1..]);
      ReverseConcat(if p(xs[0]) then [xs[0]] else [], Keep(p, xs[1..]));
    }
  }

  lemma {:induction false} KeepMembers<T>(p: T -> bool, xs: seq<T>, x: T)
    ensures x in Keep(p, xs) <==> x in xs && p(x)
  {
    if xs != [] {
      KeepMembers(p, xs[1..], x);
      assert xs == [xs[0]] + xs[1..];
    }
  }

  lemma {:induction false} KeepNone<T>(p: T -> bool, xs: seq<T>)
    requires forall x :: x in xs ==> !p(x)
    ensures Keep(p, xs) == []
  {
    if xs != [] {
      KeepNone(p, xs[1..]);
    }
  }

  function Take<T>(n: nat, xs: seq<T>): (r: seq<T>)
    ensures r <= xs && |r| <= n && (|r| < n ==> r == xs)
  {
    if n < |xs| then xs[..n] else xs
  }

  /** The last `n` elements, or all if there are fewer. */
  function LastN<T>(n: nat, xs: seq<T>): (r: seq<T>)
    ensures |r| <= n && |r| <= |xs| && r == xs[|xs| - |r|..] && (|r| < n ==> r == xs)
  {
    if n < |xs| then xs[|xs| - n..] else xs
  }

  /** Taking from the reversed sequence and reversing again takes from the end. */
  lemma ReverseTake<T>(n: nat, xs: seq<T>)
    ensures Reverse(Take(n, Reverse(xs))) == LastN(n, xs)
  {
    var r := Reverse(Take(n, Reverse(xs)));
    assert |r| == |LastN(n, xs)|;
    forall i | 0 <= i < |r|
      ensures r[i] == LastN(n, xs)[i]
    {
      var t := Take(n, Reverse(xs));
      ReverseAt(t, i);
      ReverseAt(xs, |t| - 1 - i);
    }
  }
}
