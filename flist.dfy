/**
 * FList, the persistent singly-linked list of the binomial package:
 * two variants, `Nil` and `Cons(head, tail)`, and operations built only
 * from recursion and `fold`.
 *
 * Every operation is specified against `Elements`, the sequence of values
 * a list holds, head first.
 */
module PersistentList {
  import opened Wrappers

  datatype FList<T> = Nil | Cons(head: T, tail: FList<T>)

  /** The values held by `l`, head first (the abstract value of a list). */
  function Elements<T>(l: FList<T>): seq<T>
  {
    match l
    case Nil => []
    case Cons(h, t) => [h] + Elements(t)
  }

  // ---------------------------------------------------------------------
  // Reference definitions on sequences

  /** Left fold of `s`, peeled from its LAST element: f(...f(f(base, s0), s1)..., sn). */
  ghost function FoldLeft<T, U>(s: seq<T>, base: U, f: (U, T) -> U): U
  {
    if |s| == 0 then base else f(FoldLeft(s[..|s| - 1], base, f), s[|s| - 1])
  }

  /** `s` back to front, built from its last element. */
  ghost function Reversed<T>(s: seq<T>): seq<T>
  {
    if |s| == 0 then [] else [s[|s| - 1]] + Reversed(s[..|s| - 1])
  }

  /** `a` is `b` with some of its elements deleted (relative order kept). */
  ghost predicate IsSubsequence<T>(a: seq<T>, b: seq<T>)
  {
    if |a| == 0 then true
    else if |b| == 0 then false
    else (a[0] == b[0] && IsSubsequence(a[1..], b[1..])) || IsSubsequence(a, b[1..])
  }

  // ---------------------------------------------------------------------
  // size, isEmpty

  /** The number of cells before `Nil`. */
  function Size<T>(l: FList<T>): (n: nat)
    ensures n == |Elements(l)|
  {
    match l
    case Nil => 0
    case Cons(_, t) => 1 + Size(t)
  }

  function IsEmpty<T>(l: FList<T>): (b: bool)
    ensures b <==> Size(l) == 0
    ensures b <==> Elements(l) == []
  {
    l.Nil?
  }

  // ---------------------------------------------------------------------
  // map, filter, fold

  function Map<T, U>(l: FList<T>, f: T -> U): (r: FList<U>)
    ensures Size(r) == Size(l)
    ensures forall i :: 0 <= i < Size(l) ==> Elements(r)[i] == f(Elements(l)[i])
  {
    match l
    case Nil => Nil
    case Cons(h, t) => Cons(f(h), Map(t, f))
  }

  function Filter<T>(l: FList<T>, f: T -> bool): (r: FList<T>)
    ensures Size(r) <= Size(l)
    ensures forall i :: 0 <= i < Size(r) ==> f(Elements(r)[i])
  {
    match l
    case Nil => Nil
    case Cons(h, t) => if f(h) then Cons(h, Filter(t, f)) else Filter(t, f)
  }

  /** `filter` keeps the elements it keeps in their original relative order. */
  lemma {:induction false} FilterKeepsOrder<T>(l: FList<T>, f: T -> bool)
    ensures IsSubsequence(Elements(Filter(l, f)), Elements(l))
  {
    match l
    case Nil =>
    case Cons(h, t) =>
      FilterKeepsOrder(t, f);
      var rest := Filter(t, f);
      if f(h) {
        assert Elements(Cons(h, rest))[1..] == Elements(rest);
      } else {
        SubsequenceOfTail(Elements(rest), h, Elements(t));
      }
  }

  /** `filter` keeps every occurrence of every element `f` accepts. */
  lemma {:induction false} FilterKeepsAccepted<T>(l: FList<T>, f: T -> bool, x: T)
    requires f(x)
    ensures multiset(Elements(Filter(l, f)))[x] == multiset(Elements(l))[x]
  {
    match l
    case Nil =>
    case Cons(h, t) =>
      FilterKeepsAccepted(t, f, x);
      assert Elements(l) == [h] + Elements(t);
      if f(h) {
        assert Elements(Filter(l, f)) == [h] + Elements(Filter(t, f));
      }
  }

  lemma SubsequenceOfTail<T>(a: seq<T>, h: T, b: seq<T>)
    requires IsSubsequence(a, b)
    ensures IsSubsequence(a, [h] + b)
  {
    if |a| > 0 {
      assert ([h] + b)[1..] == b;
    }
  }

  /** The source's fold: `f(base, head)` on the last cell, otherwise folds the tail from `f(base, head)`. */
  function Fold<T, U>(l: FList<T>, base: U, f: (U, T) -> U): (r: U)
    ensures r == FoldLeft(Elements(l), base, f)
  {
    match l
    case Nil => base
    case Cons(h, t) =>
      FoldLeftCons(h, Elements(t), base, f);
      if t.Nil? then f(base, h) else Fold(t, f(base, h), f)
  }

  lemma {:induction false} FoldLeftCons<T, U>(h: T, s: seq<T>, base: U, f: (U, T) -> U)
    ensures FoldLeft([h] + s, base, f) == FoldLeft(s, f(base, h), f)
    decreases |s|
  {
    if |s| == 0 {
      assert ([h] + s)[..0] == [];
    } else {
      var s' := s[..|s| - 1];
      assert ([h] + s)[..|s|] == [h] + s';
      FoldLeftCons(h, s', base, f);
    }
  }

  // ---------------------------------------------------------------------
  // reverse, add

  /** Prepends `x` to `acc`: the step function both `Reverse` and `Add` fold with. */
  function Prepend<T>(acc: FList<T>, x: T): FList<T>
  {
    Cons(x, acc)
  }

  lemma {:induction false} FoldPrepend<T>(s: seq<T>, acc: FList<T>)
    ensures Elements(FoldLeft(s, acc, Prepend)) == Reversed(s) + Elements(acc)
    decreases |s|
  {
    if |s| > 0 {
      FoldPrepend(s[..|s| - 1], acc);
    }
  }

  function Reverse<T>(l: FList<T>): (r: FList<T>)
    ensures Elements(r) == Reversed(Elements(l))
    ensures Size(r) == Size(l)
  {
    FoldPrepend(Elements(l), Nil);
    ReversedLength(Elements(l));
    Fold(l, Nil, Prepend)
  }

  /** `this` followed by `other`: the source folds `reverse(this)` onto `other`. */
  function Add<T>(l: FList<T>, other: FList<T>): (r: FList<T>)
    ensures Elements(r) == Elements(l) + Elements(other)
    ensures Size(r) == Size(l) + Size(other)
    ensures Drop(r, Size(l)) == other
  {
    var rev := Reverse(l);
    FoldPrepend(Elements(rev), other);
    ReversedTwice(Elements(l));
    var r := Fold(rev, other, Prepend);
    DropElements(r, Size(l));
    assert Elements(r)[Size(l)..] == Elements(other);
    ElementsInjective(Drop(r, Size(l)), other);
    r
  }

  /** The list after its first `n` cells (structural suffix). */
  function Drop<T>(l: FList<T>, n: nat): FList<T>
  {
    if n == 0 then l
    else match l
      case Nil => Nil
      case Cons(_, t) => Drop(t, n - 1)
  }

  lemma {:induction false} DropElements<T>(l: FList<T>, n: nat)
    requires n <= Size(l)
    ensures Elements(Drop(l, n)) == Elements(l)[n..]
  {
    if n > 0 {
      DropElements(l.tail, n - 1);
    }
  }

  lemma {:induction false} ElementsInjective<T>(a: FList<T>, b: FList<T>)
    requires Elements(a) == Elements(b)
    ensures a == b
  {
    match a
    case Nil =>
    case Cons(h, t) =>
      assert Elements(t) == Elements(a)[1..] == Elements(b)[1..];
      ElementsInjective(t, b.tail);
  }

  lemma {:induction false} ReversedLength<T>(s: seq<T>)
    ensures |Reversed(s)| == |s|
    decreases |s|
  {
    if |s| > 0 {
      ReversedLength(s[..|s| - 1]);
    }
  }

  lemma {:induction false} ReversedAt<T>(s: seq<T>, i: nat)
    requires i < |s|
    ensures |Reversed(s)| == |s| && Reversed(s)[i] == s[|s| - 1 - i]
    decreases |s|
  {
    ReversedLength(s);
    if i > 0 {
      ReversedAt(s[..|s| - 1], i - 1);
    }
  }

  lemma ReversedTwice<T>(s: seq<T>)
    ensures Reversed(Reversed(s)) == s
  {
    ReversedLength(s);
    ReversedLength(Reversed(s));
    forall i | 0 <= i < |s|
      ensures Reversed(Reversed(s))[i] == s[i]
    {
      ReversedAt(Reversed(s), i);
      ReversedAt(s, |s| - 1 - i);
    }
  }

  /** Reversing twice gives back the same list. */
  lemma ReverseInvolution<T>(l: FList<T>)
    ensures Reverse(Reverse(l)) == l
  {
    ReversedTwice(Elements(l));
    ElementsInjective(Reverse(Reverse(l)), l);
  }

  /** Folding with "append [f(x)]" from the empty list is `map(f)`. */
  lemma {:induction false} FoldAppendIsMap<T, U>(l: FList<T>, f: T -> U)
    ensures Fold(l, Nil, (acc: FList<U>, x: T) => Add(acc, Cons(f(x), Nil))) == Map(l, f)
  {
    var g := (acc: FList<U>, x: T) => Add(acc, Cons(f(x), Nil));
    FoldAppendElements(Elements(l), f);
    var r := Fold(l, Nil, g);
    assert Elements(r) == Elements(Map(l, f));
    ElementsInjective(r, Map(l, f));
  }

  lemma {:induction false} FoldAppendElements<T, U>(s: seq<T>, f: T -> U)
    ensures var r := FoldLeft(s, Nil, (acc: FList<U>, x: T) => Add(acc, Cons(f(x), Nil)));
      |Elements(r)| == |s| && forall i :: 0 <= i < |s| ==> Elements(r)[i] == f(s[i])
    decreases |s|
  {
    if |s| > 0 {
      FoldAppendElements(s[..|s| - 1], f);
    }
  }

  // ---------------------------------------------------------------------
  // flistOf

  /** The list holding `values` in argument order. */
  function FListOf<T>(values: seq<T>): (r: FList<T>)
    ensures Elements(r) == values
    ensures Size(r) == |values|
  {
    if |values| == 0 then Nil else Cons(values[0], FListOf(values[1..]))
  }

  /** Building a list from the values of a list gives the list back. */
  lemma FListOfElements<T>(l: FList<T>)
    ensures FListOf(Elements(l)) == l
  {
    ElementsInjective(FListOf(Elements(l)), l);
  }

  // ---------------------------------------------------------------------
  // FListIterator

  datatype IteratorError = NoElementLeft

  /** Forward iterator: `current` is the part of the list not yet yielded. */
  class FListIterator<T> {
    var current: FList<T>

    constructor (l: FList<T>)
      ensures current == l
    {
      current := l;
    }

    method HasNext() returns (b: bool)
      ensures b <==> Elements(current) != []
    {
      b := !IsEmpty(current);
    }

    /** Yields the head of what is left and moves past it; fails once nothing is left. */
    method Next() returns (r: Result<T, IteratorError>)
      modifies this
      ensures old(Elements(current)) == [] ==> r == Failure(NoElementLeft) && current == old(current)
      ensures old(Elements(current)) != [] ==>
        r == Success(old(Elements(current))[0]) && Elements(current) == old(Elements(current))[1..]
    {
      if IsEmpty(current) {
        return Failure(NoElementLeft);
      }
      var next := current.head;
      current := current.tail;
      return Success(next);
    }
  }
}
