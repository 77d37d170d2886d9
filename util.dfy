/** Small helpers shared by the other modules. */
module Util {

  datatype Option<+T> = None | Some(value: T)

  function Min(a: int, b: int): int
  {
    if a <= b then a else b
  }

  /** The concatenation of a list of lists, in order (JavaScript's `join("")` on strings). */
  function Flatten<T>(rows: seq<seq<T>>): seq<T>
  {
    if rows == [] then [] else rows[0] + Flatten(rows[1..])
  }

  lemma {:induction false} FlattenAppend<T>(a: seq<seq<T>>, b: seq<seq<T>>)
    ensures Flatten(a + b) == Flatten(a) + Flatten(b)
  {
    if a == [] {
      assert a + b == b;
    } else {
      assert (a + b)[1..] == a[1..] + b;
      FlattenAppend(a[1..], b);
    }
  }

  lemma FlattenSingleton<T>(row: seq<T>)
    ensures Flatten([row]) == row
  {
    assert [row][1..] == [];
  }

  lemma SliceOfMiddle<T>(a: seq<T>, m: seq<T>, c: seq<T>)
    ensures (a + (m + c))[|a|..|a| + |m|] == m
  {
  }

  lemma SliceAfter<T>(a: seq<T>, c: seq<T>, lo: int, hi: int)
    requires 0 <= lo <= hi <= |c|
    ensures (a + c)[|a| + lo..|a| + hi] == c[lo..hi]
  {
  }
}
