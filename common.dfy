/** Values shared by every module: optional values, Python's exceptions, and results
    that carry either a value or the exception the source would raise. */
module Common {

  datatype Option<T> = None | Some(value: T)

  /** The Python exceptions the modelled code can raise. */
  datatype PyError =
    | IndexError
    | ValueError
    | TypeError
    | KeyError
    | ZeroDivisionError
    | AssertionError
    | AttributeError
      /** aiohttp's error for an HTTP status of 400 or more (`raise_for_status`). */
    | ClientResponseError
      /** aiohttp's error for a request that gets no response. */
    | ClientConnectionError

  datatype Result<T> = Ok(value: T) | Err(error: PyError)

  /** An operation that returns nothing but may raise. */
  datatype Outcome = Done | Raised(error: PyError)

  function Min(a: int, b: int): int { if a <= b then a else b }

  function Max(a: int, b: int): int { if a >= b then a else b }

  /** Concatenation of a sequence of sequences. */
  function Flatten<T>(ss: seq<seq<T>>): seq<T>
  {
    if ss == [] then [] else ss[0] + Flatten(ss[1..])
  }

  lemma {:induction false} FlattenSnoc<T>(ss: seq<seq<T>>, s: seq<T>)
    ensures Flatten(ss + [s]) == Flatten(ss) + s
  {
    if ss == [] {
      assert [s][1..] == [];
    } else {
      assert (ss + [s])[1..] == ss[1..] + [s];
      FlattenSnoc(ss[1..], s);
    }
  }

  /** A Discord text channel: its id and the id of its guild. */
  datatype TextChannel = TextChannel(id: int, guild: int)

  /** True when `t` occurs as a contiguous piece of `s` (Python's `t in s` on strings). */
  predicate IsInfix<T(==)>(t: seq<T>, s: seq<T>)
  {
    t <= s || (s != [] && IsInfix(t, s[1..]))
  }

  /** No element occurs twice. */
  predicate NoDuplicates<T(==)>(xs: seq<T>)
  {
    forall i, j :: 0 <= i < j < |xs| ==> xs[i] != xs[j]
  }

  /** Python's `list.remove(x)`: drop the first occurrence. */
  function RemoveFirst<T(==)>(xs: seq<T>, x: T): (r: seq<T>)
    requires x in xs
    ensures |r| == |xs| - 1
    ensures multiset(r) == multiset(xs) - multiset{x}
  {
    if xs[0] == x then
      assert xs == [xs[0]] + xs[1..];
      xs[1..]
    else
      var r := [xs[0]] + RemoveFirst(xs[1..], x);
      assert xs == [xs[0]] + xs[1..];
      r
  }

  lemma NoDuplicatesTail<T>(xs: seq<T>)
    requires |xs| > 0 && NoDuplicates(xs)
    ensures NoDuplicates(xs[1..]) && xs[0] !in xs[1..]
  {
    forall v | v in xs[1..]
      ensures v != xs[0]
    {
      var j :| 0 <= j < |xs[1..]| && xs[1..][j] == v;
      assert xs[j + 1] == v;
    }
  }

  lemma NoDuplicatesCons<T>(y: T, ys: seq<T>)
    requires NoDuplicates(ys) && y !in ys
    ensures NoDuplicates([y] + ys)
  {
    var r := [y] + ys;
    forall i, j | 0 <= i < j < |r|
      ensures r[i] != r[j]
    {
      assert r[j] == ys[j - 1];
      if i > 0 {
        assert r[i] == ys[i - 1];
      }
    }
  }

  /** Removing never introduces an element. */
  lemma RemoveFirstSubset<T>(xs: seq<T>, x: T, v: T)
    requires x in xs && v in RemoveFirst(xs, x)
    ensures v in xs
  {
    assert v in multiset(RemoveFirst(xs, x));
  }

  /** Without duplicates, removing an element removes it entirely and keeps the list free of
      duplicates. */
  lemma {:induction false} RemoveFirstNoDuplicates<T>(xs: seq<T>, x: T)
    requires x in xs && NoDuplicates(xs)
    ensures x !in RemoveFirst(xs, x) && NoDuplicates(RemoveFirst(xs, x))
  {
    NoDuplicatesTail(xs);
    if xs[0] != x {
      RemoveFirstNoDuplicates(xs[1..], x);
      var rest := RemoveFirst(xs[1..], x);
      if xs[0] in rest {
        RemoveFirstSubset(xs[1..], x, xs[0]);
      }
      NoDuplicatesCons(xs[0], rest);
    }
  }

  /** Appending an absent element and removing it again restores the list. */
  lemma AddRemoveRoundTrip<T>(xs: seq<T>, g: T)
    requires g !in xs
    ensures RemoveFirst(xs + [g], g) == xs
  {
    if xs != [] {
      assert (xs + [g])[1..] == xs[1..] + [g];
      AddRemoveRoundTrip(xs[1..], g);
    }
  }
}
