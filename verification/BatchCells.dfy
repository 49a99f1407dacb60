/** Where each cell of a copied table goes, and as what. */
module BatchCells {
  import opened BatchCopy

  /** What becomes of a value: of nothing, nothing; of what is not itself a truth value, whether it is 1 or "1". */
  predicate IsConverted(v: Value, col: Column, json: Value -> string, w: Value) {
    if v == Null then w == Null
    else if col.dataType == "boolean" then
      w == if v in {Bool(true), Number(1), Text("1")} then Bool(true) else Bool(false)
    else if col.udtName in {"json", "jsonb"} then
      w.Text? && (v.Text? ==> w.text == v.text) && (!v.Text? ==> w.text == json(v))
    else w == v
  }

  /** The column's value in the row goes to the column; a row without the column has nothing there. */
  predicate IsCellOf(row: Row, col: Column, json: Value -> string, w: Value) {
    if col.name in row then IsConverted(row[col.name], col, json, w) else w == Null
  }

  lemma CopiedCell(row: Row, col: Column, json: Value -> string, w: Value)
    ensures w == Convert(Cell(row, col), col, json) <==> IsCellOf(row, col, json, w)
  {
  }

  /** Cell `j` of row `i` of a statement has parameter `i` times the width plus `j`, from 1, and the value is there. */
  predicate IsPlaced(q: Insert, i: nat, j: nat, width: nat, row: Row, col: Column, json: Value -> string) {
    var k := i * width + j;
    && i < |q.tuples| && |q.tuples[i]| == width && j < width && k < |q.values|
    && q.tuples[i][j] == k + 1 && IsCellOf(row, col, json, q.values[k])
  }

  lemma StoredCell(q: Insert, i: nat, j: nat, cols: seq<Column>, row: Row, json: Value -> string)
    requires IsBound(q) && IsNumbered(q.tuples, |cols|) && i < |q.tuples| && j < |cols|
    requires Stored(q)[i] == Copied(row, cols, json)
    ensures IsPlaced(q, i, j, |cols|, row, cols[j], json)
  {
    assert IsTuple(q.tuples[i], i * |cols|, |cols|);
    assert StoredRow(q, i)[j] == q.values[q.tuples[i][j] - 1];
    CopiedCell(row, cols[j], json, Copied(row, cols, json)[j]);
  }

  /** Full batches but for the last. */
  predicate AreBatches(qs: seq<Insert>) {
    && (forall q :: q in qs ==> IsBound(q) && 0 < |q.tuples| <= 500)
    && forall k :: 0 <= k < |qs| - 1 ==> |qs[k].tuples| == 500
  }

  lemma {:induction false} RowOfBatch(qs: seq<Insert>, r: nat)
    requires AreBatches(qs) && r < |StoredAll(qs)|
    ensures r / 500 < |qs| && r % 500 < |qs[r / 500].tuples|
    ensures StoredAll(qs)[r] == Stored(qs[r / 500])[r % 500]
  {
    var n := |qs| - 1;
    BatchesFill(qs[..n]);
    if r < 500 * n {
      RowOfBatch(qs[..n], r);
    } else {
      assert r == 500 * n + (r - 500 * n) && 0 <= r - 500 * n < 500;
    }
  }

  lemma {:induction false} BatchesFill(qs: seq<Insert>)
    requires forall q :: q in qs ==> IsBound(q) && |q.tuples| == 500
    ensures |StoredAll(qs)| == 500 * |qs|
  {
    if qs != [] { BatchesFill(qs[..|qs| - 1]); }
  }

  /** Row `r` of the table is row `r % 500` of statement `r / 500`, every cell of it converted and in its place. */
  lemma CellsInPlace(cols: seq<Column>, rows: seq<Row>, json: Value -> string, qs: seq<Insert>, r: nat, j: nat)
    requires AreBatches(qs) && (forall q :: q in qs ==> IsNumbered(q.tuples, |cols|))
    requires StoredAll(qs) == CopiedAll(rows, cols, json) && r < |rows| && j < |cols|
    ensures r / 500 < |qs| && IsPlaced(qs[r / 500], r % 500, j, |cols|, rows[r], cols[j], json)
  {
    RowOfBatch(qs, r);
    StoredCell(qs[r / 500], r % 500, j, cols, rows[r], json);
  }

}
