/** Values shared by every component: optional values and facts about sequences. */
module Support {

  datatype Option<+T> = None | Some(value: T)

  datatype Result<+T, +E> = Ok(value: T) | Err(error: E)

  /** The last `n` elements, or all of them when there are fewer. */
  function TakeLast<T>(s: seq<T>, n: nat): (r: seq<T>)
    ensures |r| == if |s| <= n then |s| else n
  {
    if |s| <= n then s else s[|s| - n..]
  }

  lemma TakeLastAt<T>(s: seq<T>, n: nat, i: nat)
    requires i < |TakeLast(s, n)|
    ensures TakeLast(s, n)[i] == s[|s| - |TakeLast(s, n)| + i]
  {
  }

  ghost predicate NoDuplicates<T>(s: seq<T>) {
    forall i, j :: 0 <= i < j < |s| ==> s[i] != s[j]
  }

  /** Addition that stops at `limit`, as Rust's `saturating_add` does. */
  function SaturatingAdd(a: nat, b: nat, limit: nat): (r: nat)
    ensures r <= limit && r <= a + b
    ensures r < limit ==> r == a + b
  {
    if a + b <= limit then a + b else limit
  }

  /** Feeding the elements to `f` one after the other, starting from `state`. */
  ghost function Fold<S, X>(f: (S, X) -> S, state: S, xs: seq<X>): S {
    if xs == [] then state else f(Fold(f, state, xs[..|xs| - 1]), xs[|xs| - 1])
  }

  lemma {:induction false} FoldFromFront<S, X>(f: (S, X) -> S, state: S, xs: seq<X>)
    requires xs != []
    ensures Fold(f, state, xs) == Fold(f, f(state, xs[0]), xs[1..])
    decreases |xs|
  {
    var n := |xs| - 1;
    if n == 0 {
      assert Fold(f, state, xs[..0]) == state;
    } else {
      FoldFromFront(f, state, xs[..n]);
      assert xs[..n][1..] == xs[1..][..n - 1];
    }
  }

  /** The values present in a list of optional ones, in order. */
  ghost function Present<T>(options: seq<Option<T>>): seq<T> {
    if options == [] then []
    else
      var n := |options| - 1;
      Present(options[..n]) + if options[n].Some? then [options[n].value] else []
  }

  /** The value at position `e` is number `|Present(options[..e])|` of those present. */
  lemma {:induction false} PresentAt<T>(options: seq<Option<T>>, e: nat)
    requires e < |options| && options[e].Some?
    ensures |Present(options[..e])| < |Present(options)|
    ensures Present(options)[|Present(options[..e])|] == options[e].value
    decreases |options|
  {
    var n := |options| - 1;
    if e < n {
      PresentAt(options[..n], e);
      assert options[..n][..e] == options[..e];
    }
  }

  lemma {:induction false} PresentFrom<T>(options: seq<Option<T>>, q: nat) returns (f: nat)
    requires q < |Present(options)|
    ensures f < |options| && options[f].Some? && q == |Present(options[..f])|
    ensures Present(options)[q] == options[f].value
    decreases |options|
  {
    var n := |options| - 1;
    if q < |Present(options[..n])| {
      f := PresentFrom(options[..n], q);
      assert options[..n][..f] == options[..f];
    } else {
      f := n;
    }
  }

  /** Later positions have later numbers. */
  lemma PresentInOrder<T>(options: seq<Option<T>>, f: nat, e: nat)
    requires f < e < |options| && options[f].Some?
    ensures |Present(options[..f])| < |Present(options[..e])|
  {
    PresentAt(options[..e], f);
    assert options[..e][..f] == options[..f];
  }
}
