/** Values shared by the whole client model: optional values, the success/failure shape
    every client call returns, JavaScript truthiness of optional strings, and a
    filter-and-map over sequences that the loops of the client are proved against. */
module Common {

  datatype Option<+T> = None | Some(value: T)

  /** The `{success: true, ...}` / `{success: false, error}` objects the client returns.
      `error` is `None` where the client passes on a missing attribute (`null`). */
  datatype Outcome<+T> = Success(value: T) | Failure(error: Option<string>)

  /** JavaScript truthiness of a value that is a string, `null` or `undefined`:
      present and not the empty string. */
  predicate Truthy(s: Option<string>)
  {
    s.Some? && s.value != ""
  }

  /** `s || fallback` for a string-or-null `s`. */
  function OrElse(s: Option<string>, fallback: string): (r: string)
    ensures Truthy(s) ==> r == s.value
    ensures !Truthy(s) ==> r == fallback
  {
    if Truthy(s) then s.value else fallback
  }

  /** Keeps, in order, the images of the elements `f` maps to `Some`. */
  function FilterMap<A, B>(xs: seq<A>, f: A -> Option<B>): (r: seq<B>)
    ensures |r| <= |xs|
  {
    if xs == [] then []
    else
      (match f(xs[0]) case Some(b) => [b] case None => []) + FilterMap(xs[1..], f)
  }

  /** Filtering distributes over concatenation: the kept images of a prefix come before those
      of the suffix, so the original order is kept. */
  lemma {:induction false} FilterMapAppend<A, B>(xs: seq<A>, ys: seq<A>, f: A -> Option<B>)
    ensures FilterMap(xs + ys, f) == FilterMap(xs, f) + FilterMap(ys, f)
  {
    if xs == [] {
      assert xs + ys == ys;
    } else {
      assert (xs + ys)[0] == xs[0];
      assert (xs + ys)[1..] == xs[1..] + ys;
      FilterMapAppend(xs[1..], ys, f);
    }
  }

  /** The step of a loop that filters `xs` front to back: one more element, filtered on its own. */
  lemma FilterMapStep<A, B>(xs: seq<A>, i: nat, f: A -> Option<B>)
    requires i < |xs|
    ensures FilterMap(xs[..i + 1], f) == FilterMap(xs[..i], f) + FilterMap([xs[i]], f)
  {
    FilterMapAppend(xs[..i], [xs[i]], f);
    assert xs[..i + 1] == xs[..i] + [xs[i]];
  }

  /** One element is kept exactly when `f` maps it to `Some`. */
  lemma FilterMapSingle<A, B>(x: A, f: A -> Option<B>)
    ensures FilterMap([x], f) == match f(x) case Some(b) => [b] case None => []
  {
    assert [x][1..] == [];
  }

  /** Exactly the images of the elements mapped to `Some` are kept. */
  lemma {:induction false} FilterMapMember<A, B>(xs: seq<A>, f: A -> Option<B>, b: B)
    ensures b in FilterMap(xs, f) <==> exists x :: x in xs && f(x) == Some(b)
  {
    if xs != [] {
      FilterMapMember(xs[1..], f, b);
      if f(xs[0]) == Some(b) {
        assert b in FilterMap(xs, f);
      }
      forall x | x in xs[1..] ensures x in xs { }
      forall x | x in xs && x != xs[0] ensures x in xs[1..] {
        var i :| 0 <= i < |xs| && xs[i] == x;
        assert xs[1..][i - 1] == x;
      }
    }
  }
}
