/** Types every component of the model shares. */
module Common {
  datatype Option<+T> = None | Some(value: T)

  datatype Result<+T, +E> = Success(value: T) | Failure(error: E)

  type byte = n: int | 0 <= n < 256

  type Bytes = seq<byte>

  function Least(a: nat, b: nat): nat { if a < b then a else b }

  function Concat<T>(parts: seq<seq<T>>): seq<T> { if parts == [] then [] else parts[0] + Concat(parts[1..]) }

  lemma {:induction false} ConcatAdd<T>(a: seq<seq<T>>, b: seq<seq<T>>)
    ensures Concat(a + b) == Concat(a) + Concat(b)
  {
    if a == [] {
      assert a + b == b;
    } else {
      assert (a + b)[1..] == a[1..] + b;
      ConcatAdd(a[1..], b);
    }
  }

  lemma {:induction false} ConcatSnoc<T>(a: seq<seq<T>>, last: seq<T>)
    ensures Concat(a + [last]) == Concat(a) + last
  {
    ConcatAdd(a, [last]);
    assert [last][1..] == [];
    Regroup(last, [], []);
  }

  lemma Regroup<T>(a: seq<T>, b: seq<T>, c: seq<T>)
    ensures a + b + c == a + (b + c) && [] + c == c && a + [] == a
  {
  }

  lemma Singleton<T>(s: set<T>)
    requires |s| == 1
    ensures exists x :: s == {x}
  {
    var x :| x in s;
    assert |s - {x}| == 0;
    assert s == {x};
  }

  /** The only member of a set. */
  function Only<T(==)>(s: set<T>): (x: T)
    requires |s| == 1
    ensures s == {x}
  {
    Singleton(s);
    var x :| s == {x};
    x
  }

  /** The chosen elements, unchanged and in their order. */
  function Those<T(!new)>(all: seq<T>, chosen: T -> bool): (kept: seq<T>)
    ensures forall x :: x in kept <==> x in all && chosen(x)
  {
    if all == [] then []
    else
      assert all == [all[0]] + all[1..];
      (if chosen(all[0]) then [all[0]] else []) + Those(all[1..], chosen)
  }

  lemma {:induction false} ThoseConcat<T(!new)>(a: seq<T>, b: seq<T>, chosen: T -> bool)
    ensures Those(a + b, chosen) == Those(a, chosen) + Those(b, chosen)
  {
    if a == [] {
      assert a + b == b;
    } else {
      assert (a + b)[0] == a[0] && (a + b)[1..] == a[1..] + b;
      ThoseConcat(a[1..], b, chosen);
      Regroup(if chosen(a[0]) then [a[0]] else [], Those(a[1..], chosen), Those(b, chosen));
    }
  }

  /** Two conditions that agree on the elements choose the same. */
  lemma {:induction false} ThoseSame<T(!new)>(all: seq<T>, one: T -> bool, other: T -> bool)
    requires forall x :: x in all ==> one(x) == other(x)
    ensures Those(all, one) == Those(all, other)
  {
    if all != [] {
      assert all[0] in all;
      ThoseSame(all[1..], one, other);
    }
  }
}
