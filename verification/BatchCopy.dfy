/** Copying a table in batches: numbered parameters in the statement, the values they stand for beside it. */
module BatchCopy {
  const BATCH_SIZE: nat := 500

  datatype Value = Null | Bool(b: bool) | Number(n: int) | Text(text: string) | Bytes(bytes: seq<bv8>) | Other(tag: nat)

  datatype Column = Column(name: string, dataType: string, udtName: string)

  type Row = map<string, Value>

  /** The numbers of the parameters, a tuple for each row, and the values in the order of those numbers. */
  datatype Insert = Insert(tuples: seq<seq<nat>>, values: seq<Value>)

  /** `json` is the serialiser. */
  function Convert(v: Value, col: Column, json: Value -> string): Value {
    if v.Null? then Null
    else if col.dataType == "boolean" then
      if v.Bool? then v else Bool(v == Number(1) || v == Text("1"))
    else if col.udtName == "json" || col.udtName == "jsonb" then
      if v.Text? then v else Text(json(v))
    else v
  }

  /** A row without the column has nothing there. */
  function Cell(row: Row, col: Column): Value {
    if col.name in row then row[col.name] else Null
  }

  function Copied(row: Row, cols: seq<Column>, json: Value -> string): seq<Value> {
    seq(|cols|, j requires 0 <= j < |cols| => Convert(Cell(row, cols[j]), cols[j], json))
  }

  function CopiedAll(rows: seq<Row>, cols: seq<Column>, json: Value -> string): seq<seq<Value>> {
    seq(|rows|, i requires 0 <= i < |rows| => Copied(rows[i], cols, json))
  }

  // ---------- what a statement stores ----------

  /** Every parameter of the statement has a value. */
  predicate IsBound(q: Insert) {
    forall i, j :: 0 <= i < |q.tuples| && 0 <= j < |q.tuples[i]| ==> 1 <= q.tuples[i][j] <= |q.values|
  }

  function StoredRow(q: Insert, i: nat): seq<Value>
    requires IsBound(q) && i < |q.tuples|
  {
    seq(|q.tuples[i]|, j requires 0 <= j < |q.tuples[i]| => q.values[q.tuples[i][j] - 1])
  }

  /** The database puts the value of parameter `k` wherever the statement says `$k`. */
  function Stored(q: Insert): seq<seq<Value>>
    requires IsBound(q)
  {
    seq(|q.tuples|, i requires 0 <= i < |q.tuples| => StoredRow(q, i))
  }

  function StoredAll(qs: seq<Insert>): seq<seq<Value>>
    requires forall q :: q in qs ==> IsBound(q)
  {
    if qs == [] then [] else StoredAll(qs[..|qs| - 1]) + Stored(qs[|qs| - 1])
  }

  // ---------- one batch ----------

  /** The tuples number the parameters without a gap, row by row. */
  predicate IsNumbered(tuples: seq<seq<nat>>, width: nat) {
    forall i :: 0 <= i < |tuples| ==> IsTuple(tuples[i], i * width, width)
  }

  /** The `width` numbers after `base`. */
  predicate IsTuple(tuple: seq<nat>, base: int, width: nat) {
    |tuple| == width && forall j :: 0 <= j < width ==> tuple[j] == base + j + 1
  }

  function Flat(rows: seq<seq<Value>>): seq<Value> {
    if rows == [] then [] else Flat(rows[..|rows| - 1]) + rows[|rows| - 1]
  }

  lemma {:induction false} FlatAt(rows: seq<seq<Value>>, width: nat, i: nat, j: nat)
    requires (forall r :: r in rows ==> |r| == width) && i < |rows| && j < width
    ensures |Flat(rows)| == |rows| * width
    ensures 0 <= i * width + j < |rows| * width && Flat(rows)[i * width + j] == rows[i][j]
  {
    var n := |rows| - 1;
    FlatLength(rows, width);
    FlatLength(rows[..n], width);
    if i < n {
      FlatAt(rows[..n], width, i, j);
    }
  }

  lemma OneRowMore(i: nat, width: nat)
    ensures (i + 1) * width == i * width + width
  {
  }

  lemma {:induction false} FlatLength(rows: seq<seq<Value>>, width: nat)
    requires forall r :: r in rows ==> |r| == width
    ensures |Flat(rows)| == |rows| * width
  {
    if rows != [] {
      FlatLength(rows[..|rows| - 1], width);
      OneRowMore(|rows| - 1, width);
    }
  }

  /** The values in the order of the cells, numbered in the order of the cells, store the rows they came from. */
  lemma NumberedStores(q: Insert, rows: seq<seq<Value>>, width: nat)
    requires (forall r :: r in rows ==> |r| == width) && q.values == Flat(rows)
    requires |q.tuples| == |rows| && IsNumbered(q.tuples, width)
    ensures IsBound(q) && Stored(q) == rows
  {
    forall i, j | 0 <= i < |rows| && 0 <= j < width
      ensures 1 <= q.tuples[i][j] <= |q.values| && q.values[q.tuples[i][j] - 1] == rows[i][j]
    {
      FlatAt(rows, width, i, j);
      assert IsTuple(q.tuples[i], i * width, width);
    }
    forall i | 0 <= i < |rows| ensures |q.tuples[i]| == width && |rows[i]| == width {
      assert IsTuple(q.tuples[i], i * width, width) && rows[i] in rows;
    }
    assert IsBound(q);
    forall i | 0 <= i < |rows| ensures Stored(q)[i] == rows[i] {
      assert StoredRow(q, i) == rows[i];
    }
  }

  lemma TupleAdded(tuples: seq<seq<nat>>, tuple: seq<nat>, width: nat)
    requires IsNumbered(tuples, width) && IsTuple(tuple, |tuples| * width, width)
    ensures IsNumbered(tuples + [tuple], width)
  {
    hide IsTuple;
  }

  lemma FlatMore(rows: seq<seq<Value>>, i: nat)
    requires i < |rows|
    ensures Flat(rows[..i + 1]) == Flat(rows[..i]) + rows[i]
  {
    assert rows[..i + 1][..i] == rows[..i];
  }

  lemma NothingYet(width: nat)
    ensures IsNumbered([], width) && Flat([]) == []
  {
  }

  method BuildInsert(cols: seq<Column>, chunk: seq<Row>, json: Value -> string) returns (q: Insert)
    ensures IsNumbered(q.tuples, |cols|) && IsBound(q) && Stored(q) == CopiedAll(chunk, cols, json)
    ensures |q.values| == |chunk| * |cols|
  {
    hide Convert, Cell, IsBound, Stored, IsNumbered, Flat;
    var values: seq<Value>, tuples: seq<seq<nat>>, p := [], [], 1;
    ghost var all := CopiedAll(chunk, cols, json);
    NothingYet(|cols|);
    for i := 0 to |chunk|
      invariant |tuples| == i && IsNumbered(tuples, |cols|)
      invariant values == Flat(all[..i]) && p == i * |cols| + 1
    {
      var placeholders: seq<nat> := [];
      ghost var before, base := values, i * |cols|;
      for j := 0 to |cols|
        invariant p == base + j + 1 && IsTuple(placeholders, base, j)
        invariant values == before + all[i][..j]
      {
        values := values + [Convert(Cell(chunk[i], cols[j]), cols[j], json)];
        placeholders := placeholders + [p];
        p := p + 1;
      }
      OneRowMore(i, |cols|);
      FlatMore(all, i);
      assert all[i][..|cols|] == all[i];
      TupleAdded(tuples, placeholders, |cols|);
      tuples := tuples + [placeholders];
    }
    assert all[..|chunk|] == all;
    q := Insert(tuples, values);
    NumberedStores(q, all, |cols|);
    FlatLength(all, |cols|);
  }

  // ---------- the whole table ----------

  lemma NothingStored()
    ensures StoredAll([]) == []
  {
  }

  lemma StoredMore(qs: seq<Insert>, q: Insert)
    requires (forall p :: p in qs ==> IsBound(p)) && IsBound(q)
    ensures StoredAll(qs + [q]) == StoredAll(qs) + Stored(q) && |Stored(q)| == |q.tuples|
  {
    assert (qs + [q])[..|qs|] == qs;
  }

  /** The statements, run in order, store every row once, in order, each cell as its own conversion. */
  method CopyTable(cols: seq<Column>, rows: seq<Row>, json: Value -> string) returns (qs: seq<Insert>)
    ensures (forall q :: q in qs ==> IsBound(q)) && StoredAll(qs) == CopiedAll(rows, cols, json)
    ensures forall q :: q in qs ==> 0 < |q.tuples| <= 500 && IsNumbered(q.tuples, |cols|)
    ensures forall k :: 0 <= k < |qs| - 1 ==> |qs[k].tuples| == 500
  {
    hide IsNumbered, IsBound, Copied, Stored, StoredAll;
    NothingStored();
    qs := [];
    var i := 0;
    ghost var all := CopiedAll(rows, cols, json);
    while i < |rows|
      invariant (forall q :: q in qs ==> IsBound(q))
      invariant StoredAll(qs) == all[..if i < |rows| then i else |rows|]
      invariant forall q :: q in qs ==> 0 < |q.tuples| <= 500 && IsNumbered(q.tuples, |cols|)
      invariant forall k :: 0 <= k < |qs| && (i < |rows| || k < |qs| - 1) ==> |qs[k].tuples| == 500
    {
      var end := if i + BATCH_SIZE < |rows| then i + BATCH_SIZE else |rows|;
      var q := BuildInsert(cols, rows[i..end], json);
      assert CopiedAll(rows[i..end], cols, json) == all[i..end];
      StoredMore(qs, q);
      assert all[..i] + all[i..end] == all[..end];
      qs := qs + [q];
      i := i + BATCH_SIZE;
    }
  }

  // ---------- copying a copy ----------

  predicate DistinctNames(cols: seq<Column>) {
    forall i, j :: 0 <= i < j < |cols| ==> cols[i].name != cols[j].name
  }

  /** A stored row, read back by column name. */
  function ReadBack(cells: seq<Value>, cols: seq<Column>): Row
    requires |cells| == |cols|
  {
    if cols == [] then map[] else
      var n := |cols| - 1;
      ReadBack(cells[..n], cols[..n])[cols[n].name := cells[n]]
  }

  lemma {:induction false} ReadBackCell(cells: seq<Value>, cols: seq<Column>, j: nat)
    requires |cells| == |cols| && j < |cols| && DistinctNames(cols)
    ensures Cell(ReadBack(cells, cols), cols[j]) == cells[j]
  {
    var n := |cols| - 1;
    if j < n { ReadBackCell(cells[..n], cols[..n], j); }
  }

  /** Conversion has nothing left to do on what it has stored, so a copy of a copy is the same copy. */
  lemma CopyIsStable(rows: seq<Row>, cols: seq<Column>, json: Value -> string)
    requires DistinctNames(cols)
    ensures var stored := CopiedAll(rows, cols, json);
            var back := seq(|stored|, i requires 0 <= i < |stored| => ReadBack(stored[i], cols));
            CopiedAll(back, cols, json) == stored
  {
    forall i | 0 <= i < |rows|
      ensures var cells := Copied(rows[i], cols, json); Copied(ReadBack(cells, cols), cols, json) == cells
    {
      var cells := Copied(rows[i], cols, json);
      forall j | 0 <= j < |cols| ensures Cell(ReadBack(cells, cols), cols[j]) == cells[j] {
        ReadBackCell(cells, cols, j);
      }
    }
  }
}
