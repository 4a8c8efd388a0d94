/** Option and Result, plus the two iterator helpers the game relies on:
    `find_map` over a fixed list and counting the occurrences of a value. */
module Wrappers {

  datatype Option<+T> = None | Some(value: T)

  datatype Result<+T, +E> = Ok(value: T) | Err(error: E)

  /** `Iterator::find_map`: the first `Some` that `f` yields along `xs`, or `None`
      when `f` yields `None` for every element. */
  function FindMap<T, U>(xs: seq<T>, f: T -> Option<U>): (r: Option<U>)
    ensures r.None? <==> forall n :: 0 <= n < |xs| ==> f(xs[n]).None?
    ensures r.Some? ==> exists n :: 0 <= n < |xs| && f(xs[n]) == r && FirstHit(xs, f, n)
  {
    if xs == [] then None
    else if f(xs[0]).Some? then
      assert FirstHit(xs, f, 0);
      f(xs[0])
    else
      var rest := FindMap(xs[1..], f);
      assert forall n :: 1 <= n < |xs| ==> xs[n] == xs[1..][n - 1];
      assert rest.Some? ==> exists n :: 0 <= n < |xs| && f(xs[n]) == rest && FirstHit(xs, f, n) by {
        if rest.Some? {
          var n :| 0 <= n < |xs[1..]| && f(xs[1..][n]) == rest && FirstHit(xs[1..], f, n);
          assert FirstHit(xs, f, n + 1);
        }
      }
      rest
  }

  /** Every element before position `n` makes `f` decline. */
  ghost predicate FirstHit<T, U>(xs: seq<T>, f: T -> Option<U>, n: nat)
  {
    n <= |xs| && forall m :: 0 <= m < n ==> f(xs[m]).None?
  }

  /** Number of positions of `s` that hold `x`. */
  function Count<T(==)>(s: seq<T>, x: T): (n: nat)
    ensures n <= |s|
  {
    if s == [] then 0 else (if s[0] == x then 1 else 0) + Count(s[1..], x)
  }

  /** Overwriting one position changes the count of `x` by what left and what came. */
  lemma {:induction false} CountUpdate<T>(s: seq<T>, i: nat, y: T, x: T)
    requires i < |s|
    ensures Count(s[i := y], x)
            == Count(s, x) - (if s[i] == x then 1 else 0) + (if y == x then 1 else 0)
  {
    if i == 0 {
      assert s[i := y][1..] == s[1..];
    } else {
      assert s[i := y][1..] == s[1..][i - 1 := y];
      CountUpdate(s[1..], i - 1, y, x);
    }
  }

  /** A positive count means the value occurs somewhere. */
  lemma {:induction false} CountPositive<T>(s: seq<T>, x: T)
    requires Count(s, x) > 0
    ensures exists i :: 0 <= i < |s| && s[i] == x
  {
    if s[0] != x {
      CountPositive(s[1..], x);
      var i :| 0 <= i < |s[1..]| && s[1..][i] == x;
      assert s[i + 1] == x;
    }
  }
}
