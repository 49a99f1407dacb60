/** SET texts on which the rule's verdict is wrong, one for each way in which it can be. */
module UpdateLimits {
  import opened Wrappers
  import opened SqlText
  import opened UpdateRule
  import opened UpdateEngines
  import opened UpdateText

  // ---------- reading short texts ----------

  /** Characters that neither nest nor separate. */
  predicate IsFlat(c: string) {
    forall k :: 0 <= k < |c| ==> c[k] != '(' && c[k] != ')' && c[k] != ','
  }

  lemma FlatHasNoComma(c: string, depth: int)
    requires IsFlat(c)
    ensures !HasTopComma(c, depth) && DepthAfter(c, depth) == depth
  {
    if c != [] { FlatHasNoComma(c[1..], depth); }
  }

  lemma {:induction false} CutFirst(c: string, more: string, st: Inside)
    requires IsFlat(Visible(c, st)) && !After(c, st).Literal?
    ensures Cut(c + "," + more, 0, st) == [c] + Cut(more, 0, Code)
  {
    var text, v := c + "," + more, Visible(c, st);
    if c == [] {
      assert text[0] == ',' && text[1..] == more;
      assert Cut(text, 0, st) == [[]] + Cut(more, 0, Code);
    } else {
      assert text[0] == c[0] && text[1..] == c[1..] + "," + more;
      assert v[0] == Seen(st, c[0]) && v[1..] == Visible(c[1..], Next(st, c[0]));
      CutFirst(c[1..], more, Next(st, c[0]));
      hide Cut;
      CutStep(text, 0, st);
      var rest := Cut(c[1..] + "," + more, 0, Next(st, c[0]));
      assert rest[0] == c[1..] && rest[1..] == Cut(more, 0, Code);
      assert [c[0]] + rest[0] == c;
    }
  }

  lemma {:induction false} CutLast(c: string, depth: int, st: Inside)
    requires ',' !in Visible(c, st)
    ensures Cut(c, depth, st) == [c]
  {
    if c != [] {
      var v := Visible(c, st);
      assert v[0] == Seen(st, c[0]) && v[1..] == Visible(c[1..], Next(st, c[0]));
      CutLast(c[1..], Nest(depth, v[0]), Next(st, c[0]));
      hide Cut;
      CutStep(c, depth, st);
      assert [c[0]] + c[1..] == c;
    }
  }

  /** `'body'` */
  function Quoted(body: string): string {
    "'" + body + "'"
  }

  function Blanks(n: nat): string {
    seq(n, _ => ' ')
  }

  lemma InsideLiteral(body: string)
    requires forall k :: 0 <= k < |body| ==> body[k] != '\''
    ensures Visible(body + "'", Literal) == Blanks(|body|) + "'" && After(body + "'", Literal) == Code
  {
    var text := body + "'";
    if body == [] {
      assert text == "'" && text[1..] == [];
    } else {
      assert text[0] == body[0] && text[1..] == body[1..] + "'";
      InsideLiteral(body[1..]);
    }
  }

  lemma LiteralIsBlank(body: string)
    requires forall k :: 0 <= k < |body| ==> body[k] != '\''
    ensures Visible(Quoted(body), Code) == "'" + Blanks(|body|) + "'" && After(Quoted(body), Code) == Code
  {
    InsideLiteral(body);
    assert Quoted(body)[1..] == body + "'";
  }

  /** Without quotes and colons all is visible. */
  lemma CodeIsVisible(text: string)
    requires forall k :: 0 <= k < |text| ==> text[k] != '\'' && text[k] != ':'
    ensures Visible(text, Code) == text && After(text, Code) == Code
  {
    if text != [] { CodeIsVisible(text[1..]); }
  }

  /** `column=expression` */
  function Plainly(a: Assignment): string {
    a.column + "=" + a.expression
  }

  lemma PlainlyParsed(a: Assignment)
    requires IsName(a.column, IsNameChar)
    ensures EngineClause(Plainly(a)) == Some(a)
  {
    hide Parse;
    NamesAreNames();
    var l := Layout("", "", "", "");
    assert Write(l, a) == Plainly(a);
    WrittenIsParsed(l, a, IsNameChar);
  }

  lemma PlainlyVisible(a: Assignment)
    requires IsName(a.column, IsNameChar)
    ensures Visible(Plainly(a), Code) == a.column + "=" + Visible(a.expression, Code)
    ensures After(Plainly(a), Code) == After(a.expression, Code)
  {
    CodeIsVisible(a.column + "=");
    VisibleOfConcat(a.column + "=", a.expression, Code);
  }

  function Clauses(assignments: seq<Assignment>): seq<string> {
    seq(|assignments|, k requires 0 <= k < |assignments| => Plainly(assignments[k]))
  }

  /** A name, and an expression whose visible part neither nests nor separates and that ends outside literals. */
  predicate IsSimple(a: Assignment) {
    && IsName(a.column, IsNameChar)
    && IsFlat(Visible(a.expression, Code))
    && !After(a.expression, Code).Literal?
  }

  /** A name, and an expression without a visible comma. */
  predicate IsCommaFree(a: Assignment) {
    IsName(a.column, IsNameChar) && ',' !in Visible(a.expression, Code)
  }

  /** The last of them may have parentheses. */
  predicate AreSimple(assignments: seq<Assignment>) {
    forall k :: 0 <= k < |assignments| ==>
      if k == |assignments| - 1 then IsCommaFree(assignments[k]) else IsSimple(assignments[k])
  }

  lemma SimpleIsCommaFree(a: Assignment)
    requires IsSimple(a)
    ensures IsCommaFree(a)
  {
  }

  lemma LiteralIsSimple(column: string, body: string)
    requires IsName(column, IsNameChar) && forall k :: 0 <= k < |body| ==> body[k] != '\''
    ensures IsSimple(Assignment(column, Quoted(body))) && IsCommaFree(Assignment(column, Quoted(body)))
    ensures forall w: string :: w != [] && IsWordChar(w[0]) ==> !Reads(Quoted(body), w)
  {
    LiteralIsBlank(body);
    forall w: string | w != [] && IsWordChar(w[0]) ensures !Reads(Quoted(body), w) {
      NoSuchLetter(Visible(Quoted(body), Code), w, IsNameChar);
    }
  }

  lemma CodeIsSimple(column: string, expression: string)
    requires IsName(column, IsNameChar) && IsFlat(expression)
    requires forall k :: 0 <= k < |expression| ==> expression[k] != '\'' && expression[k] != ':'
    ensures IsSimple(Assignment(column, expression)) && IsCommaFree(Assignment(column, expression))
    ensures Visible(expression, Code) == expression
  {
    CodeIsVisible(expression);
  }

  lemma NameIsFlat(name: string)
    requires IsName(name, IsNameChar)
    ensures IsFlat(name)
  {
  }

  /** Simple assignments written out plainly are what the engines read. */
  lemma {:induction false} EnginesRead(assignments: seq<Assignment>)
    requires assignments != [] && AreSimple(assignments)
    ensures EngineClauses(Join(Clauses(assignments))) == Clauses(assignments)
    ensures AllParse(Clauses(assignments)) && EngineAssignments(Clauses(assignments)) == assignments
  {
    hide Parse, Visible, After, EngineClause, Cut;
    var a, cs := assignments[0], Clauses(assignments);
    forall k | 0 <= k < |assignments| ensures EngineClause(cs[k]) == Some(assignments[k]) {
      assert k < |assignments| - 1 ==> IsSimple(assignments[k]);
      PlainlyParsed(assignments[k]);
    }
    PlainlyVisible(a);
    NameIsFlat(a.column);
    if |assignments| == 1 {
      assert IsCommaFree(a);
      CutLast(cs[0], 0, Code);
    } else {
      assert IsSimple(a);
      assert IsFlat(Visible(cs[0], Code));
      assert cs[1..] == Clauses(assignments[1..]);
      EnginesRead(assignments[1..]);
      CutFirst(cs[0], Join(cs[1..]), Code);
    }
  }

  lemma NoSuchLetter(text: string, w: string, inWord: char -> bool)
    requires w != [] && forall k :: 0 <= k < |text| ==> Fold(text[k]) != Fold(w[0])
    ensures !Contains(text, w, inWord)
  {
    forall i | 0 <= i <= |text| ensures !StandsAt(text, w, i, inWord) {
      if i + |w| <= |text| { assert FoldAll(text[i..i + |w|])[0] == Fold(text[i]) && FoldAll(w)[0] == Fold(w[0]); }
    }
  }

  lemma WholeText(w: string, inWord: char -> bool)
    ensures StandsAt(w, w, 0, inWord)
  {
    assert w[0..0 + |w|] == w;
  }

  // ---------- wrong verdicts ----------

  /** The rule is silent, yet the engines can differ. */
  ghost predicate Misses(text: string) {
    IsReadable(text) && !Verdict(text) && CanDiffer(EngineAssignments(EngineClauses(text)))
  }

  /** The rule fires, yet the engines cannot differ. */
  ghost predicate AlarmsForNothing(text: string) {
    IsReadable(text) && Verdict(text) && !CanDiffer(EngineAssignments(EngineClauses(text)))
  }

  lemma JoinTwo(a: string, b: string)
    ensures Join([a, b]) == a + "," + b
  {
    assert [a, b][1..] == [b];
  }

  lemma JoinThree(a: string, b: string, c: string)
    ensures Join([a, b, c]) == a + "," + (b + "," + c)
  {
    assert [a, b, c][1..] == [b, c];
    JoinTwo(b, c);
  }

  lemma {:induction false} CommaFree(c: string, depth: int)
    requires ',' !in c
    ensures !HasTopComma(c, depth)
  {
    if c != [] { CommaFree(c[1..], Nest(depth, c[0])); }
  }

  /** Two plain assignments without commas, the first without parentheses: the rule and the engines read the same. */
  lemma TwoAssignments(a: Assignment, b: Assignment, text: string)
    requires text == Plainly(a) + "," + Plainly(b) && AreSimple([a, b]) && FoldAll(a.column) != FoldAll(b.column)
    requires IsFlat(Plainly(a)) && ',' !in Plainly(b)
    ensures AllParse(EngineClauses(text)) && EngineAssignments(EngineClauses(text)) == [a, b]
    ensures IsReadable(text) && Separable(EngineClauses(text))
    ensures Verdict(text) <==> IsWord(a.column) && IsWord(b.column) && ContainsWord(b.expression, a.column)
    ensures CanDiffer([a, b]) <==> Reads(b.expression, a.column)
  {
    hide IsWord, Parse, Visible, After, Reads, ContainsWord, Split, Cut;
    assert Clauses([a, b]) == [Plainly(a), Plainly(b)];
    JoinTwo(Plainly(a), Plainly(b));
    EnginesRead([a, b]);
    FlatHasNoComma(Plainly(a), 0);
    CommaFree(Plainly(b), 0);
    VerdictIsNaming(text);
    DifferenceIsReading([a, b]);
    assert NamesEarlier([a, b]) <==> WordNamesAt([a, b], 1, 0);
    assert ReadsEarlier([a, b]) <==> ReadsAt([a, b], 1, 0);
  }

  lemma Mentioned(before: string, w: string, after: string)
    requires before == [] || !IsWordChar(before[|before| - 1])
    requires after == [] || !IsWordChar(after[0])
    ensures ContainsWord(before + w + after, w)
  {
    var text := before + w + after;
    assert text[|before|..|before| + |w|] == w;
    assert StandsAt(text, w, |before|, IsWordChar);
  }

  /** `a=1,b='a'`: the column is only mentioned, in a literal. */
  lemma NameInLiteral()
    ensures AlarmsForNothing("a=1,b='a'")
  {
    hide Visible, After, Contains, Reads, ContainsWord, IsSimple, Verdict, EngineClauses, CanDiffer, Parse;
    var a, b := Assignment("a", "1"), Assignment("b", Quoted("a"));
    CodeIsSimple("a", "1");
    LiteralIsSimple("b", "a");
    assert Plainly(a) + "," + Plainly(b) == "a=1,b='a'";
    assert FoldAll("a")[0] != FoldAll("b")[0];
    Mentioned("'", "a", "'");
    TwoAssignments(a, b, "a=1,b='a'");
  }

  /** `a=:a,b=:a`: the column is only mentioned, as a parameter. */
  lemma NameAsParameter()
    ensures AlarmsForNothing("a=:a,b=:a")
  {
    hide Visible, After, Contains, Reads, ContainsWord, IsSimple, Verdict, EngineClauses, CanDiffer, Parse;
    var a, b := Assignment("a", ":a"), Assignment("b", ":a");
    ParameterIsSimple("a");
    ParameterIsSimple("b");
    assert Plainly(a) + "," + Plainly(b) == "a=:a,b=:a";
    assert FoldAll("a")[0] != FoldAll("b")[0];
    Mentioned(":", "a", "");
    assert ":" + "a" + "" == ":a";
    TwoAssignments(a, b, "a=:a,b=:a");
  }

  lemma ParameterIsSimple(column: string)
    requires IsName(column, IsNameChar)
    ensures IsSimple(Assignment(column, ":a")) && IsCommaFree(Assignment(column, ":a")) && !Reads(":a", "a")
  {
    assert ":a"[1..] == "a" && "a"[1..] == "";
    assert Visible("a", Parameter) == " ";
    assert Visible(":a", Code) == ": " && After(":a", Code) == Parameter;
    NoSuchLetter(": ", "a", IsNameChar);
  }

  lemma CallIsNotRead(expression: string)
    requires expression == "date(y)"
    ensures !Reads(expression, "date")
  {
    CodeIsVisible(expression);
    forall i | 0 <= i <= |expression| ensures !ColumnAt(expression, "date", i) {
      if i > 0 && i + 4 <= |expression| {
        assert FoldAll(expression[i..i + 4])[0] == Fold(expression[i]) && FoldAll("date")[0] == 'd';
      }
    }
  }

  /** `date=1,x=date(y)`: the column is only mentioned, as a function. */
  lemma NameOfFunction()
    ensures AlarmsForNothing("date=1,x=date(y)")
  {
    hide Visible, After, Contains, Reads, ContainsWord, IsSimple, Verdict, EngineClauses, CanDiffer, Parse;
    var a, b := Assignment("date", "1"), Assignment("x", "date(y)");
    CodeIsSimple("date", "1");
    CodeIsVisible("date(y)");
    assert IsCommaFree(b);
    assert Plainly(a) + "," + Plainly(b) == "date=1,x=date(y)";
    assert |FoldAll("date")| != |FoldAll("x")|;
    Mentioned("", "date", "(y)");
    assert "" + "date" + "(y)" == "date(y)";
    CallIsNotRead("date(y)");
    TwoAssignments(a, b, "date=1,x=date(y)");
  }

  /** `a$b=1,c=a$b`: a column that is not a word is passed over and read all the same. */
  lemma OddColumn()
    ensures Misses("a$b=1,c=a$b")
  {
    hide Visible, After, Contains, Reads, ContainsWord, IsSimple, Verdict, EngineClauses, CanDiffer, Parse;
    var a, b := Assignment("a$b", "1"), Assignment("c", "a$b");
    CodeIsSimple("a$b", "1");
    CodeIsSimple("c", "a$b");
    assert Plainly(a) + "," + Plainly(b) == "a$b=1,c=a$b";
    assert !IsWordChar("a$b"[1]);
    assert |FoldAll("a$b")| != |FoldAll("c")|;
    ReadsItself("a$b");
    TwoAssignments(a, b, "a$b=1,c=a$b");
  }

  lemma ReadsItself(w: string)
    requires Visible(w, Code) == w
    ensures Reads(w, w)
  {
    WholeText(w, IsNameChar);
    assert ColumnAt(w, w, 0);
  }

  // ---------- parentheses and commas in literals ----------

  /** Deep inside an open parenthesis no comma separates. */
  lemma DeepCommas(c: string, depth: int)
    requires depth > 0 && forall k :: 0 <= k < |c| ==> c[k] != ')'
    ensures !HasTopComma(c, depth)
  {
    if c != [] { DeepCommas(c[1..], Nest(depth, c[0])); }
  }

  lemma {:induction false} OpenedEarly(before: string, after: string)
    requires IsFlat(before) && forall k :: 0 <= k < |after| ==> after[k] != ')'
    ensures !HasTopComma(before + "(" + after, 0)
  {
    var text := before + "(" + after;
    if before == [] {
      assert text[0] == '(' && text[1..] == after;
      DeepCommas(after, 1);
    } else {
      assert text[0] == before[0] && text[1..] == before[1..] + "(" + after;
      OpenedEarly(before[1..], after);
    }
  }

  lemma OneClauseIsSilent(clause: string)
    ensures !Fires(Assignments([clause]))
  {
    hide ParseClause;
    assert [clause][1..] == [];
    assert |Assignments([clause])| <= 1;
  }

  lemma HiddenClauses(text: string)
    requires text == "t=':(',a=1,b=a"
    ensures !Verdict(text)
  {
    hide HasTopComma;
    OpenedEarly("t=':", "',a=1,b=a");
    assert text == "t=':" + "(" + "',a=1,b=a";
    SplitLast(text, 0);
    OneClauseIsSilent(text);
  }

  lemma WrittenThree(a: Assignment, b: Assignment, c: Assignment)
    ensures Join(Clauses([a, b, c])) == Plainly(a) + "," + (Plainly(b) + "," + Plainly(c))
  {
    assert Clauses([a, b, c]) == [Plainly(a), Plainly(b), Plainly(c)];
    JoinThree(Plainly(a), Plainly(b), Plainly(c));
  }

  lemma ReadThree(a: Assignment, b: Assignment, c: Assignment)
    requires IsSimple(a) && IsSimple(b) && IsSimple(c)
    ensures AreSimple([a, b, c])
    ensures var cs := EngineClauses(Plainly(a) + "," + (Plainly(b) + "," + Plainly(c)));
            AllParse(cs) && EngineAssignments(cs) == [a, b, c]
  {
    SimpleIsCommaFree(c);
    hide IsSimple, IsCommaFree, Plainly, EngineClauses, Parse;
    WrittenThree(a, b, c);
    EnginesRead([a, b, c]);
  }

  lemma ThreeAssignments(text: string)
    requires text == "t=':(',a=1,b=a"
    ensures var all := [Assignment("t", Quoted(":(")), Assignment("a", "1"), Assignment("b", "a")];
            && AllParse(EngineClauses(text)) && EngineAssignments(EngineClauses(text)) == all
            && AreSimple(all) && Visible("a", Code) == "a"
  {
    hide Visible, After, Parse, IsSimple, EngineClauses;
    var t, a, b := Assignment("t", Quoted(":(")), Assignment("a", "1"), Assignment("b", "a");
    LiteralIsSimple("t", ":(");
    CodeIsSimple("a", "1");
    CodeIsSimple("b", "a");
    var all := [t, a, b];
    WrittenThree(t, a, b);
    assert Plainly(t) + "," + (Plainly(a) + "," + Plainly(b)) == text;
    hide *;
    ReadThree(t, a, b);
  }

  /** `t=':(',a=1,b=a`: the parenthesis in the literal hides the clauses after it. */
  lemma BracketInLiteral()
    ensures Misses("t=':(',a=1,b=a")
  {
    hide Visible, Contains, Reads, Verdict, EngineClauses, CanDiffer, IsSimple, AllParse;
    var text, all := "t=':(',a=1,b=a", [Assignment("t", Quoted(":(")), Assignment("a", "1"), Assignment("b", "a")];
    HiddenClauses(text);
    ThreeAssignments(text);
    assert FoldAll("t")[0] == 't' && FoldAll("a")[0] == 'a' && FoldAll("b")[0] == 'b';
    ReadsItself("a");
    assert ReadsAt(all, 2, 1);
    DifferenceIsReading(all);
  }

  lemma FoundClauses(text: string)
    requires text == "t=',a=1,b=a'"
    ensures Split(text, 0) == ["t='", "a=1", "b=a'"]
  {
    hide Split, HasTopComma, DepthAfter;
    FlatHasNoComma("t='", 0);
    FlatHasNoComma("a=1", 0);
    FlatHasNoComma("b=a'", 0);
    assert text == "t='" + "," + "a=1,b=a'";
    SplitFirst("t='", "a=1,b=a'", 0);
    assert "a=1,b=a'" == "a=1" + "," + "b=a'";
    SplitFirst("a=1", "b=a'", 0);
    SplitLast("b=a'", 0);
  }

  lemma FoundFires()
    ensures Fires(Assignments(["t='", "a=1", "b=a'"]))
  {
    hide Parse, Contains, ContainsWord;
    var t, a, b := Assignment("t", "'"), Assignment("a", "1"), Assignment("b", "a'");
    PlainlyParsed(t);
    PlainlyParsed(a);
    PlainlyParsed(b);
    var cs := ["t='", "a=1", "b=a'"];
    assert Plainly(t) == "t='" && Plainly(a) == "a=1" && Plainly(b) == "b=a'";
    assert cs == [Plainly(t), Plainly(a), Plainly(b)];
    assert EngineAssignments(cs) == [t, a, b];
    RuleSeesWords(cs);
    FiresOnWords([t, a, b]);
    Mentioned("", "a", "'");
    assert "" + "a" + "'" == "a'";
    assert WordNamesAt([t, a, b], 2, 1);
  }

  /** `t=',a=1,b=a'`: the rule finds clauses inside the literal. */
  lemma CommaInLiteral()
    ensures AlarmsForNothing("t=',a=1,b=a'")
  {
    hide Visible, After, Reads, Fires, EngineClauses, CanDiffer, Parse, IsSimple, Split, Assignments;
    var text, t := "t=',a=1,b=a'", Assignment("t", Quoted(",a=1,b=a"));
    FoundClauses(text);
    FoundFires();
    LiteralIsSimple("t", ",a=1,b=a");
    EnginesRead([t]);
    assert Plainly(t) == text && Clauses([t]) == [text];
    JoinOfOne(text);
    DifferenceIsReading([t]);
  }
}
