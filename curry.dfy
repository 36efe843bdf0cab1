/**
 * `curry_explicit` and `uncurry_explicit` of project/task3/un_curry.py.
 *
 * A Python callable taking any number of positional arguments becomes a
 * function from the argument sequence to a result. A curried function is the
 * closure `curried` together with the arguments it has collected so far; a
 * call either completes it, returns a new closure with more arguments, or is
 * refused with Python's exception, modelled as an error value.
 */
module Currying {
  import opened Wrappers

  /** The closure `curried` of `curry_explicit(func, arity)` after it has
      collected `args`. */
  datatype Curried<!A, R> = Curried(func: seq<A> -> R, arity: nat, args: seq<A>)

  /** The exceptions the two helpers raise. */
  datatype Error = ValueError | TypeError(expected: nat, got: nat)

  /** What calling a curried function returns: the function's result, or a
      closure waiting for more arguments. */
  datatype Outcome<!A, R> = Called(result: R) | Partial(next: Curried<A, R>)

  /** `curry_explicit(func, arity)`: a `ValueError` for a negative arity,
      otherwise a closure with no arguments collected. */
  function CurryExplicit<A, R>(func: seq<A> -> R, arity: int): (r: Result<Curried<A, R>, Error>)
    ensures arity < 0 <==> r == Err(ValueError)
    ensures r.Ok? ==> r.value.arity == arity && r.value.args == [] && r.value.func == func
  {
    if arity < 0 then Err(ValueError) else Ok(Curried(func, arity, []))
  }

  /** `curried(*more)`: a `TypeError` when the collected arguments would exceed
      the arity; the function applied to all collected arguments, in order,
      once they reach it; otherwise a closure holding them. */
  function Apply<A, R>(c: Curried<A, R>, more: seq<A>): (r: Result<Outcome<A, R>, Error>)
    ensures r.Err? <==> |c.args| + |more| > c.arity
    ensures r.Err? ==> r.error == TypeError(c.arity, |c.args| + |more|)
    ensures r.Ok? && r.value.Called? ==> |c.args| + |more| == c.arity && r.value.result == c.func(c.args + more)
    ensures r.Ok? && r.value.Partial? ==>
      r.value.next == Curried(c.func, c.arity, c.args + more) && |r.value.next.args| < c.arity
  {
    var all := c.args + more;
    if |all| > c.arity then Err(TypeError(c.arity, |all|))
    else if |all| == c.arity then Ok(Called(c.func(all)))
    else Ok(Partial(Curried(c.func, c.arity, all)))
  }

  /** Feeding arguments one call at a time: each call takes one argument; the
      first outcome that is not a closure ends the run. */
  function ApplyEach<A, R>(c: Curried<A, R>, args: seq<A>): Result<Outcome<A, R>, Error>
    decreases |args|
  {
    if args == [] then Ok(Partial(c))
    else
      match Apply(c, [args[0]])
      case Ok(Partial(next)) => ApplyEach(next, args[1..])
      case other => other
  }

  /** Currying: a closure still missing `k >= 1` arguments, given exactly `k`
      arguments one at a time, calls the function on all arguments in order. */
  lemma {:induction false} OneAtATime<A, R>(c: Curried<A, R>, args: seq<A>)
    requires |args| >= 1 && |c.args| + |args| == c.arity
    ensures ApplyEach(c, args) == Ok(Called(c.func(c.args + args)))
    decreases |args|
  {
    if |args| > 1 {
      var next := Curried(c.func, c.arity, c.args + [args[0]]);
      assert Apply(c, [args[0]]) == Ok(Partial(next));
      OneAtATime(next, args[1..]);
      assert next.args + args[1..] == c.args + args;
    } else {
      assert [args[0]] == args;
    }
  }

  /** All arguments at once and one at a time agree. */
  lemma AllAtOnce<A, R>(func: seq<A> -> R, args: seq<A>)
    requires |args| >= 1
    ensures Apply(Curried(func, |args|, []), args) == ApplyEach(Curried(func, |args|, []), args)
  {
    OneAtATime(Curried(func, |args|, []), args);
  }

  /** Arity 0 calls the function on `f()`, and refuses any argument. */
  lemma ArityZero<A, R>(func: seq<A> -> R, more: seq<A>)
    ensures Apply(Curried(func, 0, []), []) == Ok(Called(func([])))
    ensures |more| > 0 ==> Apply(Curried(func, 0, []), more) == Err(TypeError(0, |more|))
  {
  }

  /** The closure `uncurried` of `uncurry_explicit(curry_func, arity)`. */
  datatype Uncurried<!A, R> = Uncurried(curried: Curried<A, R>, arity: nat)

  /** `uncurry_explicit(curry_func, arity)`: a `ValueError` for a negative
      arity. */
  function UncurryExplicit<A, R>(c: Curried<A, R>, arity: int): (r: Result<Uncurried<A, R>, Error>)
    ensures arity < 0 <==> r == Err(ValueError)
    ensures r.Ok? ==> r.value == Uncurried(c, arity)
  {
    if arity < 0 then Err(ValueError) else Ok(Uncurried(c, arity))
  }

  /** `uncurried(*args)`: a `TypeError` unless exactly `arity` arguments are
      given; otherwise the curried function called with all of them. */
  function CallUncurried<A, R>(u: Uncurried<A, R>, args: seq<A>): (r: Result<Outcome<A, R>, Error>)
    ensures |args| != u.arity ==> r == Err(TypeError(u.arity, |args|))
    ensures |args| == u.arity ==> r == Apply(u.curried, args)
  {
    if |args| != u.arity then Err(TypeError(u.arity, |args|)) else Apply(u.curried, args)
  }

  /** The round trip: uncurrying a fresh curried function with its own arity
      calls the original function on exactly `arity` arguments, and refuses any
      other number of them with a `TypeError`. */
  lemma RoundTrip<A, R>(func: seq<A> -> R, arity: int, args: seq<A>)
    requires arity >= 0
    ensures CurryExplicit(func, arity).Ok?
    ensures UncurryExplicit(CurryExplicit(func, arity).value, arity).Ok?
    ensures var u := UncurryExplicit(CurryExplicit(func, arity).value, arity).value;
      && (|args| == arity ==> CallUncurried(u, args) == Ok(Called(func(args))))
      && (|args| != arity ==> CallUncurried(u, args) == Err(TypeError(arity, |args|)))
  {
    var c := CurryExplicit(func, arity).value;
    assert c.args + args == args;
  }
}
