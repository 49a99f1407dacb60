/** The rule on SET text as it stands, with literals, parameters and odd names in it: when its verdict is right. */
module UpdateText {
  import opened Wrappers
  import opened SqlText
  import opened UpdateRule
  import opened UpdateEngines

  // ---------- where the engines cut ----------

  /** The clauses of a SET text as an engine has them: what stands inside a literal neither nests nor separates. */
  function Cut(text: string, depth: int, st: Inside): (clauses: seq<string>)
    ensures clauses != []
  {
    if text == [] then [[]]
    else if Seen(st, text[0]) == ',' && depth == 0 then [[]] + Cut(text[1..], depth, Next(st, text[0]))
    else
      var rest := Cut(text[1..], Nest(depth, Seen(st, text[0])), Next(st, text[0]));
      [[text[0]] + rest[0]] + rest[1..]
  }

  lemma SeparatorsAreCode(st: Inside, c: char)
    requires Seen(st, c) == ','
    ensures Next(st, c) == Code
  {
  }

  lemma CutStep(text: string, depth: int, st: Inside)
    requires text != []
    ensures var c, next := Seen(st, text[0]), Next(st, text[0]);
            Cut(text, depth, st) ==
            if c == ',' && depth == 0 then [[]] + Cut(text[1..], depth, next)
            else var rest := Cut(text[1..], Nest(depth, c), next); [[text[0]] + rest[0]] + rest[1..]
  {
  }

  lemma SplitStep(text: string, depth: int)
    requires text != []
    ensures Split(text, depth) ==
            if text[0] == ',' && depth == 0 then [[]] + Split(text[1..], depth)
            else var rest := Split(text[1..], Nest(depth, text[0])); [[text[0]] + rest[0]] + rest[1..]
  {
  }

  /** `vs` is what is visible of the clauses `cs`, the first of which begins at `st` and the others in code. */
  predicate AreVisible(vs: seq<string>, cs: seq<string>, st: Inside) {
    && |vs| == |cs| > 0 && vs[0] == Visible(cs[0], st)
    && forall k :: 1 <= k < |cs| ==> vs[k] == Visible(cs[k], Code)
  }

  lemma VisibleFresh(vs: seq<string>, cs: seq<string>, st: Inside)
    requires AreVisible(vs, cs, Code)
    ensures AreVisible([[]] + vs, [[]] + cs, st)
  {
    assert Visible([], st) == [];
  }

  lemma VisibleGrows(vs: seq<string>, cs: seq<string>, st: Inside, c: char)
    requires AreVisible(vs, cs, Next(st, c))
    ensures AreVisible([[Seen(st, c)] + vs[0]] + vs[1..], [[c] + cs[0]] + cs[1..], st)
  {
    assert ([c] + cs[0])[1..] == cs[0];
    hide Seen, Next;
  }

  /** The engines cut where the visible text is split, and each clause begins outside literals. */
  lemma {:induction false} CutIsVisible(text: string, depth: int, st: Inside)
    ensures AreVisible(Split(Visible(text, st), depth), Cut(text, depth, st), st)
  {
    if text != [] {
      var c, next := Seen(st, text[0]), Next(st, text[0]);
      var v := Visible(text, st);
      assert v[0] == c && v[1..] == Visible(text[1..], next);
      CutIsVisible(text[1..], if c == ',' && depth == 0 then depth else Nest(depth, c), next);
      hide Cut, Split, Seen, Next, AreVisible, Visible;
      CutStep(text, depth, st);
      SplitStep(v, depth);
      if c == ',' && depth == 0 {
        SeparatorsAreCode(st, text[0]);
        VisibleFresh(Split(v[1..], depth), Cut(text[1..], depth, next), st);
      } else {
        VisibleGrows(Split(v[1..], Nest(depth, c)), Cut(text[1..], Nest(depth, c), next), st, text[0]);
      }
    }
  }

  lemma {:induction false} JoinAfterCut(text: string, depth: int, st: Inside)
    ensures Join(Cut(text, depth, st)) == text
  {
    hide Join, Seen, Next;
    if text == [] {
      JoinOfOne(text);
    } else {
      var next := Next(st, text[0]);
      if Seen(st, text[0]) == ',' && depth == 0 {
        assert text[0] == ',' by { SeenSeparator(st, text[0]); }
        JoinAfterCut(text[1..], depth, next);
        JoinStep([], Cut(text[1..], depth, next));
      } else {
        JoinAfterCut(text[1..], Nest(depth, Seen(st, text[0])), next);
        JoinGrows([text[0]], Cut(text[1..], Nest(depth, Seen(st, text[0])), next));
      }
    }
  }

  lemma SeenSeparator(st: Inside, c: char)
    ensures Seen(st, c) == c || Seen(st, c) == ' '
  {
  }

  function EngineClauses(text: string): seq<string> {
    Cut(text, 0, Code)
  }

  /**
   * The rule splits a text where the engines do if and only if, literals included, each engine clause keeps its commas
   * inside parentheses and each but the last closes them.
   */
  lemma SplitIsRightExactly(text: string)
    ensures Split(text, 0) == EngineClauses(text) <==> Separable(EngineClauses(text))
  {
    JoinAfterCut(text, 0, Code);
    SplitAfterJoin(EngineClauses(text));
  }

  /** No literal holds a parenthesis or a comma. */
  predicate LiteralsArePlain(text: string, st: Inside) {
    var v := Visible(text, st);
    forall k :: 0 <= k < |text| && (text[k] == '(' || text[k] == ')' || text[k] == ',') ==> v[k] == text[k]
  }

  lemma {:induction false} PlainLiteralsAreHarmless(text: string, depth: int, st: Inside)
    requires LiteralsArePlain(text, st)
    ensures Split(text, depth) == Cut(text, depth, st)
  {
    if text != [] {
      var c, next := text[0], Next(st, text[0]);
      var v := Visible(text, st);
      assert v[0] == Seen(st, c) && v[1..] == Visible(text[1..], next);
      assert LiteralsArePlain(text[1..], next) by {
        forall k | 0 <= k < |text[1..]| && (text[1..][k] == '(' || text[1..][k] == ')' || text[1..][k] == ',')
          ensures Visible(text[1..], next)[k] == text[1..][k]
        {
          assert v[k + 1] == text[k + 1];
        }
      }
      SeenSeparator(st, c);
      PlainLiteralsAreHarmless(text[1..], if c == ',' && depth == 0 then depth else Nest(depth, c), next);
    }
  }

  // ---------- what the rule sees of the clauses ----------

  function EngineClause(clause: string): Option<Assignment> {
    Parse(clause, IsNameChar)
  }

  lemma NamesAreNames()
    ensures IsNameSet(IsNameChar)
  {
  }

  /** Each clause is `column = expression` in one of the accepted layouts. */
  predicate AllParse(clauses: seq<string>) {
    forall k :: 0 <= k < |clauses| ==> EngineClause(clauses[k]).Some?
  }

  function EngineAssignments(clauses: seq<string>): seq<Assignment>
    requires AllParse(clauses)
  {
    seq(|clauses|, k requires 0 <= k < |clauses| => EngineClause(clauses[k]).value)
  }

  /** The rule reads a clause as the engines do, or passes over it when the column is not a word. */
  lemma OddColumnIsSkipped(clause: string, a: Assignment)
    requires EngineClause(clause) == Some(a)
    ensures ParseClause(clause) == if IsWord(a.column) then Some(a) else None
  {
    hide Parse;
    WordsAreNames();
    NamesAreNames();
    ParseIsExact(clause, a, IsNameChar);
    if IsWord(a.column) {
      var l :| IsLayout(l) && IsName(a.column, IsNameChar) && Write(l, a) == clause;
      assert IsClause(clause, a, IsWordChar);
      ParseIsExact(clause, a, IsWordChar);
    } else if ParseClause(clause).Some? {
      var b := ParseClause(clause).value;
      ParseIsExact(clause, b, IsWordChar);
      var l :| IsLayout(l) && IsName(b.column, IsWordChar) && Write(l, b) == clause;
      assert IsClause(clause, b, IsNameChar);
      ParseIsExact(clause, b, IsNameChar);
      assert false;
    }
  }

  function OnlyWords(clauses: seq<Assignment>): seq<Assignment> {
    if clauses == [] then []
    else if IsWord(clauses[0].column) then [clauses[0]] + OnlyWords(clauses[1..])
    else OnlyWords(clauses[1..])
  }

  lemma {:induction false} RuleSeesWords(clauses: seq<string>)
    requires AllParse(clauses)
    ensures Assignments(clauses) == OnlyWords(EngineAssignments(clauses))
  {
    hide ParseClause, EngineClause;
    if clauses != [] {
      var all := EngineAssignments(clauses);
      OddColumnIsSkipped(clauses[0], all[0]);
      assert all[1..] == EngineAssignments(clauses[1..]);
      RuleSeesWords(clauses[1..]);
    }
  }

  /** A clause on a word names, in code or not, a word that an earlier clause assigns. */
  predicate NamesEarlier(clauses: seq<Assignment>) {
    exists i, j :: 0 <= i < j < |clauses| && WordNamesAt(clauses, j, i)
  }

  predicate WordNamesAt(clauses: seq<Assignment>, j: nat, i: nat)
    requires i < |clauses| && j < |clauses|
  {
    IsWord(clauses[i].column) && IsWord(clauses[j].column) && NamesAt(clauses, j, i)
  }

  lemma OnlyWordsMembers(clauses: seq<Assignment>, a: Assignment)
    ensures a in OnlyWords(clauses) <==> a in clauses && IsWord(a.column)
  {
    if clauses != [] {
      OnlyWordsMembers(clauses[1..], a);
      assert a in clauses <==> a == clauses[0] || a in clauses[1..];
    }
  }

  /** One of the later clauses names the column of `a`. */
  predicate NamedLater(a: Assignment, rest: seq<Assignment>) {
    exists k :: 0 <= k < |rest| && ContainsWord(rest[k].expression, a.column)
  }

  lemma FiresStep(a: Assignment, rest: seq<Assignment>)
    ensures Fires([a] + rest) <==> NamedLater(a, rest) || Fires(rest)
  {
    hide ContainsWord;
    var all := [a] + rest;
    if Fires(all) {
      var i, j :| 0 <= i < j < |all| && NamesAt(all, j, i);
      assert all[j] == rest[j - 1];
      assert i > 0 ==> all[i] == rest[i - 1] && NamesAt(rest, j - 1, i - 1);
    }
    if NamedLater(a, rest) {
      var k :| 0 <= k < |rest| && ContainsWord(rest[k].expression, a.column);
      assert all[0] == a && all[k + 1] == rest[k] && NamesAt(all, k + 1, 0);
    }
    if Fires(rest) {
      var i, j :| 0 <= i < j < |rest| && NamesAt(rest, j, i);
      assert all[i + 1] == rest[i] && all[j + 1] == rest[j] && NamesAt(all, j + 1, i + 1);
    }
  }

  lemma NamesStep(a: Assignment, rest: seq<Assignment>)
    ensures NamesEarlier([a] + rest) <==> (IsWord(a.column) && NamedLater(a, OnlyWords(rest))) || NamesEarlier(rest)
  {
    hide ContainsWord, IsWord, OnlyWords;
    var all, kept := [a] + rest, OnlyWords(rest);
    if NamesEarlier(all) {
      var i, j :| 0 <= i < j < |all| && WordNamesAt(all, j, i);
      assert all[j] == rest[j - 1];
      assert i > 0 ==> all[i] == rest[i - 1] && WordNamesAt(rest, j - 1, i - 1);
      OnlyWordsMembers(rest, all[j]);
    }
    if IsWord(a.column) && NamedLater(a, kept) {
      var k :| 0 <= k < |kept| && ContainsWord(kept[k].expression, a.column);
      OnlyWordsMembers(rest, kept[k]);
      var j :| 0 <= j < |rest| && rest[j] == kept[k];
      assert all[0] == a && all[j + 1] == kept[k] && WordNamesAt(all, j + 1, 0);
    }
    if NamesEarlier(rest) {
      var i, j :| 0 <= i < j < |rest| && WordNamesAt(rest, j, i);
      assert all[i + 1] == rest[i] && all[j + 1] == rest[j] && WordNamesAt(all, j + 1, i + 1);
    }
  }

  lemma {:induction false} FiresOnWords(clauses: seq<Assignment>)
    ensures Fires(OnlyWords(clauses)) <==> NamesEarlier(clauses)
  {
    if clauses != [] {
      hide ContainsWord, IsWord, Fires, NamesEarlier, NamedLater;
      var a, rest := clauses[0], clauses[1..];
      assert clauses == [a] + rest;
      FiresOnWords(rest);
      FiresStep(a, OnlyWords(rest));
      NamesStep(a, rest);
    }
  }

  // ---------- the verdict ----------

  predicate Verdict(text: string) {
    Fires(Assignments(Split(text, 0)))
  }

  /** The clauses are assignments to distinct columns. */
  predicate IsReadable(text: string) {
    var cs := EngineClauses(text);
    AllParse(cs) && DistinctColumns(EngineAssignments(cs))
  }

  /** A clause reads an earlier one's column, and one of the two columns is not a word. */
  predicate OddReading(clauses: seq<Assignment>) {
    exists i, j :: 0 <= i < j < |clauses| && ReadsAt(clauses, j, i)
                   && !(IsWord(clauses[i].column) && IsWord(clauses[j].column))
  }

  lemma VerdictIsNaming(text: string)
    requires IsReadable(text) && Separable(EngineClauses(text))
    ensures Verdict(text) <==> NamesEarlier(EngineAssignments(EngineClauses(text)))
  {
    hide Split, EngineClauses, Separable, Assignments, OnlyWords, Fires, NamesEarlier;
    SplitIsRightExactly(text);
    RuleSeesWords(EngineClauses(text));
    FiresOnWords(EngineAssignments(EngineClauses(text)));
  }

  lemma ReadsThenNames(clauses: seq<Assignment>)
    requires ReadsEarlier(clauses)
    ensures NamesEarlier(clauses) || OddReading(clauses)
  {
    hide Reads, IsWord, ContainsWord;
    var i, j :| 0 <= i < j < |clauses| && ReadsAt(clauses, j, i);
    if IsWord(clauses[i].column) && IsWord(clauses[j].column) {
      ReadsAreNamed(clauses[j].expression, clauses[i].column);
      assert WordNamesAt(clauses, j, i);
    }
  }

  /**
   * A firing rule is right if and only if some clause reads an earlier one's column rather than merely mentioning it in
   * a literal, as a parameter, as a function or in a longer name. A silent rule that splits where the engines do is wrong
   * if and only if a clause reads an earlier one's column and one of those two columns is not a word; a silent rule
   * misled by parentheses or commas in literals is wrong if and only if any clause does.
   */
  lemma VerdictIsRightExactly(text: string)
    requires IsReadable(text)
    ensures var clauses := EngineAssignments(EngineClauses(text));
            && (Verdict(text) ==> (CanDiffer(clauses) <==> ReadsEarlier(clauses)))
            && (!Verdict(text) ==> (CanDiffer(clauses) <==>
                  if Separable(EngineClauses(text)) then OddReading(clauses) else ReadsEarlier(clauses)))
  {
    hide Verdict, EngineClauses, Separable, EngineAssignments, CanDiffer, NamesEarlier;
    var clauses := EngineAssignments(EngineClauses(text));
    DifferenceIsReading(clauses);
    if Separable(EngineClauses(text)) {
      VerdictIsNaming(text);
      if ReadsEarlier(clauses) { ReadsThenNames(clauses); }
    }
  }

  /** Where the rule splits right, it is right if and only if an earlier column is named just when one is read. */
  lemma VerdictIsRightOnSplit(text: string)
    requires IsReadable(text) && Separable(EngineClauses(text))
    ensures var clauses := EngineAssignments(EngineClauses(text));
            (Verdict(text) <==> CanDiffer(clauses)) <==> (NamesEarlier(clauses) <==> ReadsEarlier(clauses))
  {
    hide Verdict, EngineClauses, Separable, EngineAssignments, CanDiffer, NamesEarlier, ReadsEarlier;
    VerdictIsNaming(text);
    DifferenceIsReading(EngineAssignments(EngineClauses(text)));
  }

  /** So silence on plain words means that both engines compute the same row, whatever the values are. */
  lemma SilenceMeansSame<V(!new)>(text: string, row: Row<V>, eval: (string, Row<V>) -> V)
    ensures IsPlainAndSilent(text) && IsEvaluator(eval) ==>
              var clauses := EngineAssignments(EngineClauses(text));
              InOrder(clauses, row, eval) == AtOnce(clauses, row, eval)
  {
    hide Verdict, EngineClauses, Separable, EngineAssignments, NamesEarlier, IsWord, Reads, IsEvaluator;
    if IsPlainAndSilent(text) && IsEvaluator(eval) {
      var clauses := EngineAssignments(EngineClauses(text));
      VerdictIsNaming(text);
      if ReadsEarlier(clauses) { ReadsThenNames(clauses); }
      IndependentMeansSame(clauses, row, eval);
    }
  }

  /** The rule is silent on a text that it splits right and whose columns are words. */
  predicate IsPlainAndSilent(text: string) {
    IsReadable(text) && Separable(EngineClauses(text)) && !Verdict(text)
    && var clauses := EngineAssignments(EngineClauses(text));
       forall k :: 0 <= k < |clauses| ==> IsWord(clauses[k].column)
  }

  /** What an expression names it reads: no mere mentions. */
  predicate MentionsAreReadings(clauses: seq<Assignment>) {
    forall i, j :: 0 <= i < j < |clauses| && NamesAt(clauses, j, i) ==> ReadsAt(clauses, j, i)
  }

  /** With words for columns and no mere mentions, the rule fires if and only if the engines can differ. */
  lemma RuleIsExact(text: string)
    requires IsReadable(text) && Separable(EngineClauses(text))
    requires var clauses := EngineAssignments(EngineClauses(text));
             MentionsAreReadings(clauses) && forall k :: 0 <= k < |clauses| ==> IsWord(clauses[k].column)
    ensures Verdict(text) <==> CanDiffer(EngineAssignments(EngineClauses(text)))
  {
    hide Verdict, EngineClauses, EngineAssignments, CanDiffer, Reads, ContainsWord, IsWord;
    VerdictIsRightExactly(text);
    VerdictIsNaming(text);
  }
}
