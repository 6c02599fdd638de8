/** Small vocabulary shared by every module of the model. */
module Common {
  newtype byte = x: int | 0 <= x < 0x100

  type Bytes = seq<byte>

  datatype Option<+T> = None | Some(value: T)

  datatype Result<+T, +E> = Ok(value: T) | Err(error: E)

  /** Go's `Duration.Milliseconds`: nanoseconds divided by a million, truncated toward zero. */
  function Milliseconds(nanos: int): int {
    if nanos >= 0 then nanos / 1_000_000 else -((-nanos) / 1_000_000)
  }

  /** The whole milliseconds that fit, with the sign of the duration. */
  lemma MillisecondsTruncates(nanos: int)
    ensures nanos >= 0 ==> 0 <= Milliseconds(nanos) * 1_000_000 <= nanos < (Milliseconds(nanos) + 1) * 1_000_000
    ensures nanos <= 0 ==> (Milliseconds(nanos) - 1) * 1_000_000 < nanos <= Milliseconds(nanos) * 1_000_000 <= 0
  {
  }

  /** A listing holds every element of `elems` exactly once, in no particular order. */
  ghost predicate ListsOnce<T(!new)>(elems: set<T>, out: seq<T>) {
    && (forall x :: x in out <==> x in elems)
    && forall i, j :: 0 <= i < j < |out| ==> out[i] != out[j]
  }

  ghost predicate Distinct<T(!new)>(xs: seq<T>) {
    forall i, j :: 0 <= i < j < |xs| ==> xs[i] != xs[j]
  }

  /** All elements but `x`, in order. */
  function Without<T(==)>(xs: seq<T>, x: T): seq<T> {
    if xs == [] then []
    else (if xs[0] == x then [] else [xs[0]]) + Without(xs[1..], x)
  }

  lemma {:induction false} WithoutKeeps<T(!new)>(xs: seq<T>, x: T)
    ensures forall y :: y in Without(xs, x) <==> y in xs && y != x
    ensures Distinct(xs) ==> Distinct(Without(xs, x))
  {
    if xs != [] {
      var rest := xs[1..];
      WithoutKeeps(rest, x);
      assert forall y :: y in xs <==> y == xs[0] || y in rest;
      if Distinct(xs) {
        assert forall i :: 0 <= i < |rest| ==> rest[i] == xs[i + 1];
        assert xs[0] !in rest;
        assert Distinct([xs[0]] + Without(rest, x));
      }
    }
  }

  /** Everything else stays as often as it was. */
  lemma {:induction false} WithoutCounts<T>(xs: seq<T>, x: T, y: T)
    ensures multiset(Without(xs, x))[y] == if y == x then 0 else multiset(xs)[y]
  {
    if xs != [] {
      WithoutCounts(xs[1..], x, y);
      assert xs == [xs[0]] + xs[1..];
    }
  }

  /** Of distinct elements exactly one goes. */
  lemma {:induction false} WithoutLength<T(!new)>(xs: seq<T>, x: T)
    requires Distinct(xs)
    ensures |Without(xs, x)| == if x in xs then |xs| - 1 else |xs|
  {
    if xs != [] {
      var rest := xs[1..];
      assert forall i :: 0 <= i < |rest| ==> rest[i] == xs[i + 1];
      assert xs[0] !in rest;
      WithoutLength(rest, x);
    }
  }

  lemma {:induction false} WithoutAppend<T>(xs: seq<T>, y: T, x: T)
    ensures Without(xs + [y], x) == if y == x then Without(xs, x) else Without(xs, x) + [y]
  {
    if xs == [] {
      assert xs + [y] == [y];
    } else {
      assert (xs + [y])[0] == xs[0] && (xs + [y])[1..] == xs[1..] + [y];
      WithoutAppend(xs[1..], y, x);
    }
  }
}
