/** Shared vocabulary: optional values, the library's errors, and list helpers. */
module Prelude {

  datatype Option<+T> = None | Some(value: T)

  /** The library's error kinds that the modelled operations return.  Message texts are not kept. */
  datatype Error =
    | InvalidSignature
    | UnsupportedAlgorithm
    | UnsupportedVersion
    | Expired
    | Banned
    | NoVerifiedEmail
    | NoRole
    | BadFrame
    | Encode
    | Decode
    | FabricMismatch
    | InvalidEmailPattern
    | InvalidPush
    | InvalidPolicy
    | ItemsMismatch
    | NotADirectory
    | FreshMismatch
    | FreshLapsed
    | FreshTooLong
    | SelfVouched
    | Unvouched
    | OlderHead(theirs: nat, ours: nat)

  datatype Result<+T, +E> = Ok(value: T) | Err(error: E) {
    predicate IsFailure() {
      Err?
    }

    function PropagateFailure<U>(): Result<U, E>
      requires Err?
    {
      Err(error)
    }

    function Extract(): T
      requires Ok?
    {
      value
    }
  }

  /** `Ok(())` when `condition` holds, else the error. */
  function Require<E>(condition: bool, error: E): Result<(), E> {
    if condition then Ok(()) else Err(error)
  }

  /** The elements of `s` that satisfy `keep`, in order. */
  function Filter<T(!new)>(s: seq<T>, keep: T -> bool): (r: seq<T>)
    ensures |r| <= |s|
    ensures forall x :: x in r <==> x in s && keep(x)
  {
    if s == [] then []
    else
      var rest := Filter(s[..|s| - 1], keep);
      assert s == s[..|s| - 1] + [s[|s| - 1]];
      if keep(s[|s| - 1]) then rest + [s[|s| - 1]] else rest
  }

  lemma {:induction false} FilterConcat<T(!new)>(a: seq<T>, b: seq<T>, keep: T -> bool)
    ensures Filter(a + b, keep) == Filter(a, keep) + Filter(b, keep)
  {
    if b == [] {
      assert a + b == a;
    } else {
      var b' := b[..|b| - 1];
      assert (a + b)[..|a + b| - 1] == a + b';
      FilterConcat(a, b', keep);
    }
  }

  lemma {:induction false} FilterAll<T(!new)>(s: seq<T>, keep: T -> bool)
    requires forall x :: x in s ==> keep(x)
    ensures Filter(s, keep) == s
  {
    if s != [] {
      FilterAll(s[..|s| - 1], keep);
      assert s == s[..|s| - 1] + [s[|s| - 1]];
    }
  }

  lemma {:induction false} FilterNone<T(!new)>(s: seq<T>, keep: T -> bool)
    requires forall x :: x in s ==> !keep(x)
    ensures Filter(s, keep) == []
  {
    if s != [] {
      FilterNone(s[..|s| - 1], keep);
    }
  }

  /** Filtering by a weaker test first changes nothing. */
  lemma {:induction false} FilterWeaker<T(!new)>(s: seq<T>, weaker: T -> bool, test: T -> bool)
    requires forall x :: x in s && test(x) ==> weaker(x)
    ensures Filter(Filter(s, weaker), test) == Filter(s, test)
  {
    if s != [] {
      var init, last := s[..|s| - 1], s[|s| - 1];
      assert s == init + [last];
      FilterWeaker(init, weaker, test);
      var kept := Filter(init, weaker);
      if weaker(last) {
        assert (kept + [last])[..|kept|] == kept;
      }
    }
  }

  /** The first element that passes `test`. */
  function First<T(!new)>(s: seq<T>, test: T -> bool): (r: Option<T>)
    ensures r.Some? ==> r.value in s && test(r.value)
    ensures r.None? ==> forall x :: x in s ==> !test(x)
  {
    if s == [] then None
    else
      assert s == [s[0]] + s[1..];
      if test(s[0]) then Some(s[0]) else First(s[1..], test)
  }

  lemma {:induction false} FirstOfTwo<T(!new)>(a: seq<T>, b: seq<T>, test: T -> bool)
    ensures First(a + b, test) == if First(a, test).Some? then First(a, test) else First(b, test)
  {
    if a == [] {
      assert a + b == b;
    } else {
      assert (a + b)[1..] == a[1..] + b;
      FirstOfTwo(a[1..], b, test);
    }
  }

  /** Leaving out what cannot pass leaves the first that passes the same. */
  lemma {:induction false} FirstOfFiltered<T(!new)>(s: seq<T>, weaker: T -> bool, test: T -> bool)
    requires forall x :: x in s && test(x) ==> weaker(x)
    ensures First(Filter(s, weaker), test) == First(s, test)
  {
    if s != [] {
      var init, last := s[..|s| - 1], s[|s| - 1];
      assert s == init + [last];
      FirstOfFiltered(init, weaker, test);
      FirstOfTwo(init, [last], test);
      FirstOfTwo(Filter(init, weaker), [last], test);
    }
  }

  /** Run `step` over `parts`, stopping at the first error. */
  function Steps<S(!new), P(!new), E>(s: S, parts: seq<P>, step: (S, P) -> Result<S, E>): Result<S, E>
    decreases |parts|
  {
    if parts == [] then Ok(s)
    else
      var next :- step(s, parts[0]);
      Steps(next, parts[1..], step)
  }

  /** Two steps that succeed succeed in either order, with one outcome. */
  ghost predicate Commutes<S(!new), P(!new), E(!new)>(step: (S, P) -> Result<S, E>) {
    forall s, x, y :: step(s, x).Ok? && step(step(s, x).value, y).Ok? ==>
      step(s, y).Ok? && step(step(s, y).value, x) == step(step(s, x).value, y)
  }

  lemma {:induction false} MoveToFront<S(!new), P(!new), E(!new)>(
    s: S, a: seq<P>, x: P, b: seq<P>, step: (S, P) -> Result<S, E>)
    requires Commutes(step) && Steps(s, a + [x] + b, step).Ok?
    ensures Steps(s, [x] + (a + b), step) == Steps(s, a + [x] + b, step)
    decreases |a|
  {
    if a == [] {
      assert a + [x] + b == [x] + (a + b);
    } else {
      var h, t := a[0], a[1..];
      assert (a + [x] + b)[1..] == t + [x] + b;
      MoveToFront(step(s, h).value, t, x, b, step);
      assert ([x] + (t + b))[1..] == t + b;
      assert ([x] + (a + b))[1..] == a + b && (a + b)[1..] == t + b;
    }
  }

  lemma WithoutOne<P>(x: P, rest: seq<P>, a: seq<P>, b: seq<P>)
    requires multiset([x] + rest) == multiset(a + [x] + b)
    ensures multiset(rest) == multiset(a + b)
  {
    assert multiset([x] + rest) == multiset{x} + multiset(rest);
    assert multiset(a + [x] + b) == multiset{x} + multiset(a + b);
    assert multiset(rest) == multiset([x] + rest) - multiset{x};
    assert multiset(a + b) == multiset(a + [x] + b) - multiset{x};
  }

  lemma Found<P>(x: P, order: seq<P>) returns (a: seq<P>, b: seq<P>)
    requires x in order
    ensures order == a + [x] + b
  {
    var i :| 0 <= i < |order| && order[i] == x;
    a, b := order[..i], order[i + 1..];
  }

  /** The first of some parts, found in another order of them. */
  lemma PickFirst<P>(parts: seq<P>, order: seq<P>) returns (a: seq<P>, b: seq<P>)
    requires parts != [] && multiset(parts) == multiset(order)
    ensures order == a + [parts[0]] + b && multiset(parts[1..]) == multiset(a + b)
  {
    assert parts == [parts[0]] + parts[1..];
    assert parts[0] in multiset(order);
    a, b := Found(parts[0], order);
    WithoutOne(parts[0], parts[1..], a, b);
  }

  /** Where steps commute, any order of the same parts that succeeds gives one outcome. */
  lemma {:induction false} AnyOrder<S(!new), P(!new), E(!new)>(
    s: S, parts: seq<P>, order: seq<P>, step: (S, P) -> Result<S, E>)
    requires Commutes(step) && multiset(parts) == multiset(order)
    requires Steps(s, order, step).Ok?
    ensures Steps(s, parts, step) == Steps(s, order, step)
    decreases |parts|
  {
    if parts == [] {
      assert |order| == |multiset(order)| == 0;
    } else {
      var x := parts[0];
      var a, b := PickFirst(parts, order);
      MoveToFront(s, a, x, b, step);
      assert ([x] + (a + b))[1..] == a + b;
      AnyOrder(step(s, x).value, parts[1..], a + b, step);
    }
  }

  /** The first error `check` finds in `s`, in order; `Ok` when every element passes. */
  function CheckAll<T(!new), E>(s: seq<T>, check: T -> Result<(), E>): (r: Result<(), E>)
    ensures r.Ok? <==> forall x :: x in s ==> check(x).Ok?
  {
    if s == [] then Ok(())
    else
      assert s == [s[0]] + s[1..];
      var _ :- check(s[0]);
      CheckAll(s[1..], check)
  }
}
