/**
 * What an UPDATE computes: MySQL evaluates its SET clauses left to right on the changing row, Postgres evaluates all of
 * them on the old row (section 13.10 of SQL-92). Which columns an expression reads is told by the names in its text.
 */
module UpdateEngines {
  import opened SqlText
  import opened UpdateRule

  // ---------- what an engine sees of a text ----------

  /** Inside nothing, inside a string literal, or inside the name of a bound parameter. */
  datatype Inside = Code | Literal | Parameter

  function Next(st: Inside, c: char): Inside {
    if st.Literal? then if c == '\'' then Code else Literal
    else if st.Parameter? && IsWordChar(c) then Parameter
    else if c == '\'' then Literal
    else if c == ':' then Parameter
    else Code
  }

  /** Literals and the names of parameters are blank; a doubled quote inside a literal closes and reopens it. */
  function Seen(st: Inside, c: char): char {
    if (st.Literal? && c != '\'') || (st.Parameter? && IsWordChar(c)) then ' ' else c
  }

  function Visible(text: string, st: Inside): (v: string)
    ensures |v| == |text|
  {
    if text == [] then [] else [Seen(st, text[0])] + Visible(text[1..], Next(st, text[0]))
  }

  function After(text: string, st: Inside): Inside {
    if text == [] then st else After(text[1..], Next(st, text[0]))
  }

  lemma {:induction false} VisibleOfConcat(a: string, b: string, st: Inside)
    ensures Visible(a + b, st) == Visible(a, st) + Visible(b, After(a, st))
    ensures After(a + b, st) == After(b, After(a, st))
  {
    hide Next, Seen;
    if a == [] {
      assert a + b == b;
    } else {
      assert (a + b)[0] == a[0] && (a + b)[1..] == a[1..] + b;
      VisibleOfConcat(a[1..], b, Next(st, a[0]));
    }
  }

  /** A column name as both engines take it unquoted. */
  predicate IsNameChar(c: char) {
    IsWordChar(c) || c == '$'
  }

  /** The name stands at `i` by itself, and not as that of a function. */
  predicate ColumnAt(text: string, column: string, i: nat) {
    StandsAt(text, column, i, IsNameChar) && (i + |column| < |text| ==> text[i + |column|] != '(')
  }

  /** The expression names the column where an engine sees the name of one. */
  predicate Reads(expression: string, column: string) {
    var v := Visible(expression, Code);
    exists i :: 0 <= i <= |v| && ColumnAt(v, column, i)
  }

  /** A blank does not begin or end in the middle of a word. */
  lemma {:induction false} BlanksAreWhole(text: string, st: Inside, k: nat)
    requires k + 1 < |text|
    ensures var v := Visible(text, st);
            && (v[k] == text[k] || v[k] == ' ') && (v[k + 1] == text[k + 1] || v[k + 1] == ' ')
            && (v[k] != text[k] && IsWordChar(text[k + 1]) ==> v[k + 1] != text[k + 1])
            && (v[k + 1] != text[k + 1] && IsWordChar(text[k]) ==> v[k] != text[k])
  {
    var rest := text[1..];
    if k == 0 {
      assert rest[0] == text[1];
    } else {
      BlanksAreWhole(rest, Next(st, text[0]), k - 1);
    }
  }

  /** What is read is also named in the plain text, as long as it is a word. */
  lemma ReadsAreNamed(expression: string, column: string)
    requires IsWord(column) && Reads(expression, column)
    ensures ContainsWord(expression, column)
  {
    hide Visible;
    var v, n := Visible(expression, Code), |column|;
    var i :| 0 <= i <= |v| && ColumnAt(v, column, i);
    SpelledOut(v, column, i);
    forall k | i <= k < i + n ensures v[k] == expression[k] { BlanksOnly(expression, Code, k); }
    assert v[i..i + n] == expression[i..i + n];
    if i > 0 { BlanksAreWhole(expression, Code, i - 1); }
    if i + n < |v| { BlanksAreWhole(expression, Code, i + n - 1); }
    assert StandsAt(expression, column, i, IsWordChar);
  }

  lemma SpelledOut(text: string, w: string, i: nat)
    requires IsWord(w) && StandsAt(text, w, i, IsNameChar)
    ensures forall k :: i <= k < i + |w| ==> IsWordChar(text[k])
  {
    forall k | i <= k < i + |w| ensures IsWordChar(text[k]) {
      assert FoldAll(text[i..i + |w|])[k - i] == FoldAll(w)[k - i];
      assert IsWordChar(w[k - i]);
    }
  }

  lemma {:induction false} BlanksOnly(text: string, st: Inside, k: nat)
    requires k < |text|
    ensures var v := Visible(text, st); v[k] == text[k] || v[k] == ' '
  {
    if k > 0 { BlanksOnly(text[1..], Next(st, text[0]), k - 1); }
  }

  // ---------- rows ----------

  /** A row, by column name in lower case. */
  type Row<V> = map<string, V>

  /** The rows agree on every column the expression reads. */
  ghost predicate AgreeOnRead<V>(expression: string, r: Row<V>, s: Row<V>) {
    forall c: string :: Reads(expression, c) ==> (c in r <==> c in s) && (c in r ==> r[c] == s[c])
  }

  /** An expression's value depends on no column it does not read. */
  ghost predicate IsEvaluator<V(!new)>(eval: (string, Row<V>) -> V) {
    forall e: string, r: Row<V>, s: Row<V> :: AgreeOnRead(e, r, s) ==> eval(e, r) == eval(e, s)
  }

  /** MySQL: each clause reads the row the clauses before it have left. */
  function InOrder<V>(clauses: seq<Assignment>, row: Row<V>, eval: (string, Row<V>) -> V): Row<V>
    decreases |clauses|
  {
    if clauses == [] then row else
      var k := |clauses| - 1;
      var before := InOrder(clauses[..k], row, eval);
      before[FoldAll(clauses[k].column) := eval(clauses[k].expression, before)]
  }

  /** Postgres: each clause reads the row as it was. */
  function AtOnce<V>(clauses: seq<Assignment>, row: Row<V>, eval: (string, Row<V>) -> V): Row<V>
    decreases |clauses|
  {
    if clauses == [] then row else
      var k := |clauses| - 1;
      AtOnce(clauses[..k], row, eval)[FoldAll(clauses[k].column) := eval(clauses[k].expression, row)]
  }

  /** Clauses leave alone the columns they do not assign. */
  lemma {:induction false} OthersUntouched<V>(clauses: seq<Assignment>, row: Row<V>, eval: (string, Row<V>) -> V, c: string)
    requires forall i :: 0 <= i < |clauses| ==> FoldAll(clauses[i].column) != c
    ensures var r := AtOnce(clauses, row, eval); (c in r <==> c in row) && (c in r ==> r[c] == row[c])
    ensures var r := InOrder(clauses, row, eval); (c in r <==> c in row) && (c in r ==> r[c] == row[c])
    decreases |clauses|
  {
    if clauses != [] {
      var k := |clauses| - 1;
      OthersUntouched(clauses[..k], row, eval, c);
      assert FoldAll(clauses[k].column) != c;
    }
  }

  /** Some clause reads a column that an earlier clause assigns. */
  predicate ReadsEarlier(clauses: seq<Assignment>) {
    exists i, j :: 0 <= i < j < |clauses| && ReadsAt(clauses, j, i)
  }

  predicate ReadsAt(clauses: seq<Assignment>, j: nat, i: nat)
    requires i < |clauses| && j < |clauses|
  {
    Reads(clauses[j].expression, clauses[i].column)
  }

  /** When no clause reads an earlier one's column both engines compute the same row. */
  lemma {:induction false} IndependentMeansSame<V(!new)>(clauses: seq<Assignment>, row: Row<V>,
                                                         eval: (string, Row<V>) -> V)
    requires !ReadsEarlier(clauses) && IsEvaluator(eval)
    ensures InOrder(clauses, row, eval) == AtOnce(clauses, row, eval)
    decreases |clauses|
  {
    hide Reads;
    if clauses != [] {
      var k := |clauses| - 1;
      var before, e := clauses[..k], clauses[k].expression;
      assert !ReadsEarlier(before) by {
        forall i, j | 0 <= i < j < |before| ensures !ReadsAt(before, j, i) {
          assert before[j] == clauses[j] && before[i] == clauses[i] && !ReadsAt(clauses, j, i);
        }
      }
      IndependentMeansSame(before, row, eval);
      var left := InOrder(before, row, eval);
      forall c: string | Reads(e, c) ensures (c in left <==> c in row) && (c in left ==> left[c] == row[c]) {
        forall i | 0 <= i < |before| ensures FoldAll(before[i].column) != c {
          CaseIsNotRead(e, clauses[i].column);
          assert !ReadsAt(clauses, k, i);
        }
        OthersUntouched(before, row, eval, c);
      }
      assert AgreeOnRead(e, left, row);
    }
  }

  lemma CaseIsNotRead(expression: string, column: string)
    ensures Reads(expression, column) <==> Reads(expression, FoldAll(column))
  {
    var v, folded := Visible(expression, Code), FoldAll(column);
    FoldIsIdempotent(column);
    if Reads(expression, column) {
      var i :| 0 <= i <= |v| && ColumnAt(v, column, i);
      assert ColumnAt(v, folded, i);
    }
    if Reads(expression, folded) {
      var i :| 0 <= i <= |v| && ColumnAt(v, folded, i);
      assert ColumnAt(v, column, i);
    }
  }

  predicate DistinctColumns(clauses: seq<Assignment>) {
    forall i, j :: 0 <= i < j < |clauses| ==> FoldAll(clauses[i].column) != FoldAll(clauses[j].column)
  }

  /** From this row, with these values of expressions, the engines end with different rows. */
  ghost predicate Disagree(clauses: seq<Assignment>, row: Row<int>, eval: (string, Row<int>) -> int) {
    IsEvaluator(eval) && InOrder(clauses, row, eval) != AtOnce(clauses, row, eval)
  }

  ghost predicate CanDiffer(clauses: seq<Assignment>) {
    exists row, eval: (string, Row<int>) -> int :: Disagree(clauses, row, eval)
  }

  /** An expression that reads `w` is worth one more than `w`; any other is worth one. */
  function Counting(w: string): (string, Row<int>) -> int {
    (e: string, r: Row<int>) => if Reads(e, w) && w in r then r[w] + 1 else 1
  }

  lemma DistinctPrefix(clauses: seq<Assignment>, n: nat)
    requires n <= |clauses| && DistinctColumns(clauses)
    ensures DistinctColumns(clauses[..n])
  {
    var before := clauses[..n];
    forall p, q | 0 <= p < q < |before| ensures FoldAll(before[p].column) != FoldAll(before[q].column) {
      assert before[p] == clauses[p] && before[q] == clauses[q];
    }
  }

  /** The last word on a column is its own clause's. */
  lemma {:induction false} OwnClauseDecides<V>(clauses: seq<Assignment>, j: nat, row: Row<V>, eval: (string, Row<V>) -> V)
    requires j < |clauses| && DistinctColumns(clauses)
    ensures var c, e := FoldAll(clauses[j].column), clauses[j].expression;
            && c in AtOnce(clauses, row, eval) && AtOnce(clauses, row, eval)[c] == eval(e, row)
            && c in InOrder(clauses, row, eval)
            && InOrder(clauses, row, eval)[c] == eval(e, InOrder(clauses[..j], row, eval))
    decreases |clauses|
  {
    hide FoldAll;
    var k := |clauses| - 1;
    if j < k {
      var before := clauses[..k];
      DistinctPrefix(clauses, k);
      OwnClauseDecides(before, j, row, eval);
      assert before[..j] == clauses[..j];
    }
  }

  /** When a clause does read an earlier one's column some row tells the engines apart. */
  lemma ReadingMeansDisagree(clauses: seq<Assignment>) returns (row: Row<int>, eval: (string, Row<int>) -> int)
    requires ReadsEarlier(clauses) && DistinctColumns(clauses)
    ensures Disagree(clauses, row, eval)
  {
    hide Reads;
    var i, j :| 0 <= i < j < |clauses| && ReadsAt(clauses, j, i);
    var w := FoldAll(clauses[i].column);
    CaseIsNotRead(clauses[j].expression, clauses[i].column);
    row, eval := map[w := 0], Counting(w);
    assert IsEvaluator(eval);
    var before := clauses[..j];
    DistinctPrefix(clauses, j);
    OwnClauseDecides(before, i, row, eval);
    assert before[i] == clauses[i];
    forall p | 0 <= p < i ensures FoldAll(before[..i][p].column) != w { assert before[..i][p] == clauses[p]; }
    OthersUntouched(before[..i], row, eval, w);
    assert InOrder(before, row, eval)[w] == 1;
    OwnClauseDecides(clauses, j, row, eval);
    var c := FoldAll(clauses[j].column);
    assert InOrder(clauses, row, eval)[c] == 2 && AtOnce(clauses, row, eval)[c] == 1;
  }

  /** The engines can differ on distinct columns if and only if some clause reads an earlier one's column. */
  lemma DifferenceIsReading(clauses: seq<Assignment>)
    requires DistinctColumns(clauses)
    ensures CanDiffer(clauses) <==> ReadsEarlier(clauses)
  {
    if ReadsEarlier(clauses) {
      var row, eval := ReadingMeansDisagree(clauses);
    }
    if !ReadsEarlier(clauses) {
      forall row, eval: (string, Row<int>) -> int ensures !Disagree(clauses, row, eval) {
        if IsEvaluator(eval) { IndependentMeansSame(clauses, row, eval); }
      }
    }
  }
}
