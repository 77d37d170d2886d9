/**
 * The decorative grid: the resolved digests are written as hex text, cut
 * into rows of five, and each cell shows a short prefix and an ellipsis.
 * The digests themselves are inputs here (32 bytes each for SHA-256).
 */
module Grid {
  import opened Util
  import opened Hex
  import opened Chunking

  /** Bytes in a SHA-256 digest. */
  const DigestLength := 32
  /** Characters of a cell's text shown before the ellipsis. */
  const CellPrefixLength := 16
  const Ellipsis := "..."

  /** `hashes.map(buf => hex text of buf)`. */
  function EncodeAll(hashes: seq<seq<byte>>): (hexes: seq<string>)
    ensures |hexes| == |hashes|
    ensures forall k :: 0 <= k < |hashes| ==> hexes[k] == Encode(hashes[k])
  {
    seq(|hashes|, k requires 0 <= k < |hashes| => Encode(hashes[k]))
  }

  /**
   * What the resolved digests turn into before they are published: rows of
   * five hex texts, in the order the digests were generated.
   */
  method BuildMatrix(hashes: seq<seq<byte>>) returns (matrix: seq<seq<string>>)
    ensures matrix == Chunks(EncodeAll(hashes))
    ensures Flatten(matrix) == EncodeAll(hashes)
    ensures |hashes| == 25 ==> |matrix| == 5
    ensures |hashes| == 25 ==>
      forall i, j :: 0 <= i < 5 && 0 <= j < 5 ==> |matrix[i]| == 5 && matrix[i][j] == Encode(hashes[5 * i + j])
  {
    var hexes := EncodeAll(hashes);
    matrix := ChunkRows(hexes);
    if |hashes| == 25 {
      TwentyFiveMakeFiveByFive(hexes);
    }
  }

  /** `{hash.slice(0, 16)}...`: at most sixteen leading characters of the text, then an ellipsis. */
  function CellText(hash: string): (text: string)
    ensures |text| == Min(|hash|, CellPrefixLength) + |Ellipsis|
    ensures text[..|text| - |Ellipsis|] <= hash
    ensures text[|text| - |Ellipsis|..] == Ellipsis
  {
    hash[..Min(|hash|, CellPrefixLength)] + Ellipsis
  }

  /** A SHA-256 digest's cell shows 16 characters, the hex text of its first 8 bytes, then the ellipsis. */
  lemma DigestCellText(digest: seq<byte>)
    requires |digest| == DigestLength
    ensures CellText(Encode(digest)) == Encode(digest[..8]) + Ellipsis
    ensures |CellText(Encode(digest))| == CellPrefixLength + 3
  {
    EncodeAppend(digest[..8], digest[8..]);
    assert digest[..8] + digest[8..] == digest;
    assert Encode(digest)[..16] == Encode(digest[..8]);
  }

  function CellRow(row: seq<string>): seq<string>
  {
    seq(|row|, j requires 0 <= j < |row| => CellText(row[j]))
  }

  /**
   * The cells as the page lays them out: `hashMatrix.map(row => row.map(...))`
   * inside one five-column grid, so row after row, left to right.
   */
  function DisplayedCells(matrix: seq<seq<string>>): seq<string>
  {
    Flatten(seq(|matrix|, i requires 0 <= i < |matrix| => CellRow(matrix[i])))
  }

  /** Laying the rows out one after another shows the cells of the flattened matrix, in order. */
  lemma {:induction false} DisplayedCellsInOrder(matrix: seq<seq<string>>)
    ensures DisplayedCells(matrix) == CellRow(Flatten(matrix))
  {
    if matrix != [] {
      var rows := seq(|matrix|, i requires 0 <= i < |matrix| => CellRow(matrix[i]));
      assert rows[1..] == seq(|matrix[1..]|, i requires 0 <= i < |matrix[1..]| => CellRow(matrix[1..][i]));
      DisplayedCellsInOrder(matrix[1..]);
      assert CellRow(matrix[0] + Flatten(matrix[1..])) == CellRow(matrix[0]) + CellRow(Flatten(matrix[1..]));
    }
  }

  /**
   * Once the digests are published, cell `k` of the page shows the first 8
   * bytes of digest `k` in hex followed by the ellipsis: the grid keeps the
   * generation order and every cell text is 19 characters long.
   */
  lemma DisplayedGrid(hashes: seq<seq<byte>>)
    requires forall k :: 0 <= k < |hashes| ==> |hashes[k]| == DigestLength
    ensures |DisplayedCells(Chunks(EncodeAll(hashes)))| == |hashes|
    ensures forall k :: 0 <= k < |hashes| ==>
      DisplayedCells(Chunks(EncodeAll(hashes)))[k] == Encode(hashes[k][..8]) + Ellipsis
  {
    var hexes := EncodeAll(hashes);
    ChunksFlatten(hexes);
    DisplayedCellsInOrder(Chunks(hexes));
    forall k | 0 <= k < |hashes|
      ensures CellText(hexes[k]) == Encode(hashes[k][..8]) + Ellipsis
    {
      DigestCellText(hashes[k]);
    }
  }
}
