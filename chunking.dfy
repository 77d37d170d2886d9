/**
 * The loop that cuts the list of digest texts into grid rows:
 * `while (hexes.length) structured.push(hexes.splice(0, 5))`.
 */
module Chunking {
  import opened Util

  /** How many entries each `splice` takes off the front of the buffer. */
  const RowWidth := 5

  /** `xs.splice(0, count)`: the entries it removes and returns, and what stays in `xs`. */
  function SpliceFront<T>(xs: seq<T>, count: nat): (r: (seq<T>, seq<T>))
    ensures r.0 + r.1 == xs
    ensures |r.0| == Min(count, |xs|)
  {
    var n := Min(count, |xs|);
    assert xs[..n] + xs[n..] == xs;
    (xs[..n], xs[n..])
  }

  /** The rows the draining loop pushes, as a function of the list it starts from. */
  function Chunks<T>(xs: seq<T>): seq<seq<T>>
    decreases |xs|
  {
    if |xs| == 0 then
      []
    else
      [SpliceFront(xs, RowWidth).0] + Chunks(SpliceFront(xs, RowWidth).1)
  }

  /** Every row is full except the last, which holds between one and `RowWidth` entries. */
  ghost predicate WellShaped<T>(rows: seq<seq<T>>)
  {
    forall k :: 0 <= k < |rows| ==> 0 < |rows[k]| <= RowWidth && (k < |rows| - 1 ==> |rows[k]| == RowWidth)
  }

  /**
   * The loop itself. `hexes` is drained from the front and `structured`
   * grows one row per iteration; the rows pushed so far followed by what is
   * left in the buffer always spell out the original list.
   */
  method ChunkRows<T>(items: seq<T>) returns (structured: seq<seq<T>>)
    ensures structured == Chunks(items)
    ensures Flatten(structured) == items
  {
    var hexes := items;
    structured := [];
    while |hexes| > 0
      invariant structured + Chunks(hexes) == Chunks(items)
      invariant Flatten(structured) + hexes == items
      decreases |hexes|
    {
      var (row, rest) := SpliceFront(hexes, RowWidth);
      PushStep(structured, hexes, row, rest);
      structured := structured + [row];
      hexes := rest;
    }
    assert Flatten(structured) + hexes == Flatten(structured);
  }

  /** One iteration of the loop keeps both invariants. */
  lemma PushStep<T>(structured: seq<seq<T>>, hexes: seq<T>, row: seq<T>, rest: seq<T>)
    requires |hexes| > 0 && (row, rest) == SpliceFront(hexes, RowWidth)
    ensures structured + Chunks(hexes) == (structured + [row]) + Chunks(rest)
    ensures Flatten(structured) + hexes == Flatten(structured + [row]) + rest
  {
    var later := Chunks(rest);
    assert Chunks(hexes) == [row] + later;
    assert structured + ([row] + later) == (structured + [row]) + later;
    FlattenPush(structured, row, rest);
  }

  lemma FlattenPush<T>(structured: seq<seq<T>>, row: seq<T>, rest: seq<T>)
    ensures Flatten(structured) + (row + rest) == Flatten(structured + [row]) + rest
  {
    FlattenAppend(structured, [row]);
    FlattenSingleton(row);
  }

  /** Concatenating the rows gives back the original list, in order. */
  lemma {:induction false} ChunksFlatten<T>(xs: seq<T>)
    ensures Flatten(Chunks(xs)) == xs
    decreases |xs|
  {
    if |xs| > 0 {
      var (row, rest) := SpliceFront(xs, RowWidth);
      ChunksFlatten(rest);
      assert ([row] + Chunks(rest))[1..] == Chunks(rest);
    }
  }

  /** The rows are full except possibly a non-empty last one, and there are `ceil(|xs| / RowWidth)` of them. */
  lemma {:induction false} ChunksShape<T>(xs: seq<T>)
    ensures WellShaped(Chunks(xs))
    ensures |Chunks(xs)| == (|xs| + RowWidth - 1) / RowWidth
    decreases |xs|
  {
    if |xs| > 0 {
      var (row, rest) := SpliceFront(xs, RowWidth);
      ChunksShape(rest);
      var rows := Chunks(xs);
      assert rows == [row] + Chunks(rest);
      assert rest != [] ==> |row| == RowWidth;
      forall k | 0 <= k < |rows|
        ensures 0 < |rows[k]| <= RowWidth && (k < |rows| - 1 ==> |rows[k]| == RowWidth)
      {
        if k > 0 {
          assert rows[k] == Chunks(rest)[k - 1];
        }
      }
    }
  }

  /** Row `i` of a list of `RowWidth * n` entries is exactly its `i`-th block of `RowWidth`. */
  lemma {:induction false} ChunksOfFullRows<T>(xs: seq<T>, n: nat)
    requires |xs| == RowWidth * n
    ensures |Chunks(xs)| == n
    ensures forall i :: 0 <= i < n ==> Chunks(xs)[i] == xs[RowWidth * i..RowWidth * i + RowWidth]
    decreases n
  {
    if n > 0 {
      var (row, rest) := SpliceFront(xs, RowWidth);
      assert rest == xs[RowWidth..];
      ChunksOfFullRows(rest, n - 1);
      forall i | 0 <= i < n
        ensures Chunks(xs)[i] == xs[RowWidth * i..RowWidth * i + RowWidth]
      {
        if i > 0 {
          assert Chunks(xs)[i] == Chunks(rest)[i - 1];
          assert rest[RowWidth * (i - 1)..RowWidth * (i - 1) + RowWidth] == xs[RowWidth * i..RowWidth * i + RowWidth];
        }
      }
    }
  }

  /** Twenty-five entries give five rows of five: entry `(i, j)` is entry `5i + j` of the list. */
  lemma TwentyFiveMakeFiveByFive<T>(xs: seq<T>)
    requires |xs| == 25
    ensures |Chunks(xs)| == 5
    ensures forall i :: 0 <= i < 5 ==> |Chunks(xs)[i]| == 5
    ensures forall i, j :: 0 <= i < 5 && 0 <= j < 5 ==> Chunks(xs)[i][j] == xs[5 * i + j]
  {
    ChunksOfFullRows(xs, 5);
  }
}
