/** Failure-compatible Option and Result datatypes, and the ways extracting a
    profile can fail. */
module Wrappers {

  /** A value that may be absent: JavaScript's `undefined` or `null`. */
  datatype Option<T> = None | Some(value: T)

  /** Why extracting one profile was abandoned. In the script each of these is a
      TypeError thrown by the JavaScript runtime, which ends the extraction. */
  datatype Failure =
    | InvalidName            // the full name has fewer than two tokens: its result cannot be destructured
    | MissingRequiredField   // an element or text span that is read is not on the page
    | MalformedDateRange     // a tenure string has no " - ": the end token is undefined
    | OpenEndedYear          // a year range ends in "Present": the null end token has no length

  /** Every element of a sequence, each wrapped as present. */
  function AllSome<T>(xs: seq<T>): (r: seq<Option<T>>)
    ensures |r| == |xs| && forall i :: 0 <= i < |r| ==> r[i] == Some(xs[i])
  {
    seq(|xs|, i requires 0 <= i < |xs| => Some(xs[i]))
  }

  /** The element at a position of an array, `undefined` past its end. */
  function At<T>(xs: seq<Option<T>>, i: nat): (r: Option<T>)
    ensures i < |xs| ==> r == xs[i]
    ensures i >= |xs| ==> r == None
  {
    if i < |xs| then xs[i] else None
  }

  datatype Result<T> = Ok(value: T) | Err(error: Failure) {
    predicate IsFailure() { Err? }

    function PropagateFailure<U>(): Result<U>
      requires Err?
    {
      Err(error)
    }

    function Extract(): T
      requires Ok?
    {
      value
    }
  }

  /** A step that may fail applied to each element in order, stopping at the
      first failure: a loop whose body may throw. */
  function MapResult<T, R>(f: T -> Result<R>, xs: seq<T>): (r: Result<seq<R>>)
    ensures r.Ok? <==> forall i :: 0 <= i < |xs| ==> f(xs[i]).Ok?
    ensures r.Ok? ==> |r.value| == |xs| && forall i :: 0 <= i < |xs| ==> f(xs[i]) == Ok(r.value[i])
    decreases |xs|
  {
    if xs == [] then Ok([])
    else
      var ys :- MapResult(f, xs[..|xs| - 1]);
      var y :- f(xs[|xs| - 1]);
      Ok(ys + [y])
  }

  /** The failure of the whole is the failure of the first step that fails. */
  lemma {:induction false} MapResultFirstError<T, R>(f: T -> Result<R>, xs: seq<T>, k: nat)
    requires k < |xs| && MapResult(f, xs[..k]).Ok? && f(xs[k]).Err?
    ensures MapResult(f, xs) == Err(f(xs[k]).error)
    decreases |xs|
  {
    if |xs| == k + 1 {
      assert xs[..|xs| - 1] == xs[..k];
    } else {
      var init := xs[..|xs| - 1];
      assert init[..k] == xs[..k];
      MapResultFirstError(f, init, k);
    }
  }

  /** Running over `xs + ys` is running over `xs` and then over `ys`. */
  lemma {:induction false} MapResultAppend<T, R>(f: T -> Result<R>, xs: seq<T>, ys: seq<T>)
    ensures MapResult(f, xs + ys).Ok? <==> MapResult(f, xs).Ok? && MapResult(f, ys).Ok?
    ensures MapResult(f, xs + ys).Ok? ==>
      MapResult(f, xs + ys).value == MapResult(f, xs).value + MapResult(f, ys).value
    decreases |ys|
  {
    if ys == [] {
      assert xs + ys == xs;
    } else {
      var init := ys[..|ys| - 1];
      assert (xs + ys)[..|xs + ys| - 1] == xs + init;
      MapResultAppend(f, xs, init);
    }
  }

  /** The elements of a sequence of sequences, in order. */
  function Flatten<T>(xss: seq<seq<T>>): seq<T>
    decreases |xss|
  {
    if xss == [] then [] else Flatten(xss[..|xss| - 1]) + xss[|xss| - 1]
  }

  /** Flattening distributes over concatenation. */
  lemma {:induction false} FlattenAppend<T>(xss: seq<seq<T>>, yss: seq<seq<T>>)
    ensures Flatten(xss + yss) == Flatten(xss) + Flatten(yss)
    decreases |yss|
  {
    if yss == [] {
      assert xss + yss == xss;
    } else {
      var init := yss[..|yss| - 1];
      var last := yss[|yss| - 1];
      assert (xss + yss)[..|xss + yss| - 1] == xss + init;
      assert Flatten(xss + yss) == Flatten(xss + init) + last;
      FlattenAppend(xss, init);
      assert Flatten(yss) == Flatten(init) + last;
    }
  }
}
