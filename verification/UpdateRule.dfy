/**
 * The rule against an UPDATE whose SET clauses read what an earlier clause assigned: MySQL evaluates the clauses left
 * to right on the changing row, Postgres evaluates all of them on the old row (section 13.10 of SQL-92).
 */
module UpdateRule {
  import opened Wrappers
  import opened SqlText

  // ---------- splitting the SET text ----------

  function Nest(depth: int, c: char): int {
    if c == '(' then depth + 1 else if c == ')' then depth - 1 else depth
  }

  /** The clauses of `text`, read from nesting depth `depth`. */
  function Split(text: string, depth: int): (clauses: seq<string>)
    ensures clauses != []
  {
    if text == [] then [[]]
    else if text[0] == ',' && depth == 0 then [[]] + Split(text[1..], depth)
    else
      var rest := Split(text[1..], Nest(depth, text[0]));
      [[text[0]] + rest[0]] + rest[1..]
  }

  function Join(clauses: seq<string>): string
    requires clauses != []
  {
    if |clauses| == 1 then clauses[0] else clauses[0] + "," + Join(clauses[1..])
  }

  /** A comma outside all parentheses, read from depth `depth`. */
  predicate HasTopComma(c: string, depth: int) {
    c != [] && ((c[0] == ',' && depth == 0) || HasTopComma(c[1..], Nest(depth, c[0])))
  }

  function DepthAfter(c: string, depth: int): int {
    if c == [] then depth else DepthAfter(c[1..], Nest(depth, c[0]))
  }

  /** Every clause but the last closes its parentheses, and commas stand only between clauses. */
  predicate Separable(clauses: seq<string>) {
    && (forall i :: 0 <= i < |clauses| ==> !HasTopComma(clauses[i], 0))
    && (forall i :: 0 <= i < |clauses| - 1 ==> DepthAfter(clauses[i], 0) == 0)
  }

  lemma JoinStep(c: string, rest: seq<string>)
    requires rest != []
    ensures Join([c] + rest) == c + "," + Join(rest)
  {
    assert ([c] + rest)[1..] == rest;
  }

  lemma JoinGrows(x: string, rest: seq<string>)
    requires rest != []
    ensures Join([x + rest[0]] + rest[1..]) == x + Join(rest)
  {
    hide Join;
    if |rest| == 1 {
      assert [x + rest[0]] + rest[1..] == [x + rest[0]] && rest == [rest[0]];
      JoinOfOne(x + rest[0]);
      JoinOfOne(rest[0]);
    } else {
      JoinStep(x + rest[0], rest[1..]);
      JoinStep(rest[0], rest[1..]);
      assert rest == [rest[0]] + rest[1..];
    }
  }

  /** Joining the clauses with commas restores the text. */
  lemma {:induction false} JoinAfterSplit(text: string, depth: int)
    ensures Join(Split(text, depth)) == text
  {
    hide Join;
    if text == [] {
      JoinOfOne(text);
    } else if text[0] == ',' && depth == 0 {
      JoinAfterSplit(text[1..], depth);
      JoinStep([], Split(text[1..], depth));
    } else {
      JoinAfterSplit(text[1..], Nest(depth, text[0]));
      JoinGrows([text[0]], Split(text[1..], Nest(depth, text[0])));
    }
  }

  lemma JoinOfOne(text: string)
    ensures Join([text]) == text
  {
  }

  /** What splitting yields, the first clause read from `depth`. */
  lemma {:induction false} SplitIsSeparable(text: string, depth: int)
    ensures var r := Split(text, depth);
            && !HasTopComma(r[0], depth) && Separable(r[1..])
            && (|r| > 1 ==> DepthAfter(r[0], depth) == 0)
  {
    if text != [] {
      SplitIsSeparable(text[1..], if text[0] == ',' && depth == 0 then depth else Nest(depth, text[0]));
      var r := Split(text, depth);
      if text[0] == ',' && depth == 0 {
        var rest := Split(text[1..], depth);
        assert r[1..] == rest;
        assert forall i :: 1 <= i < |rest| ==> rest[i] == rest[1..][i - 1];
      } else {
        var rest := Split(text[1..], Nest(depth, text[0]));
        assert r[1..] == rest[1..];
        assert r[0][1..] == rest[0];
      }
    }
  }

  /** Reading on after a clause that closes what it opens. */
  lemma {:induction false} SplitFirst(c: string, more: string, depth: int)
    requires !HasTopComma(c, depth) && DepthAfter(c, depth) == 0
    ensures Split(c + "," + more, depth) == [c] + Split(more, 0)
  {
    var text := c + "," + more;
    if c == [] {
      assert text[1..] == more;
    } else {
      assert text[0] == c[0] && text[1..] == c[1..] + "," + more;
      SplitFirst(c[1..], more, Nest(depth, c[0]));
      var rest := Split(text[1..], Nest(depth, c[0]));
      assert rest[0] == c[1..] && rest[1..] == Split(more, 0);
      assert [c[0]] + rest[0] == c;
    }
  }

  lemma {:induction false} SplitLast(c: string, depth: int)
    requires !HasTopComma(c, depth)
    ensures Split(c, depth) == [c]
  {
    if c != [] {
      SplitLast(c[1..], Nest(depth, c[0]));
      assert [c[0]] + c[1..] == c;
    }
  }

  /** Splitting a joined list restores the list exactly when the list is separable. */
  lemma {:induction false} SplitAfterJoin(clauses: seq<string>)
    requires clauses != []
    ensures Split(Join(clauses), 0) == clauses <==> Separable(clauses)
  {
    if Split(Join(clauses), 0) == clauses {
      SplitIsSeparable(Join(clauses), 0);
      assert forall i :: 1 <= i < |clauses| ==> clauses[i] == clauses[1..][i - 1];
    }
    if Separable(clauses) { SplitOfSeparable(clauses); }
  }

  lemma {:induction false} SplitOfSeparable(clauses: seq<string>)
    requires clauses != [] && Separable(clauses)
    ensures Split(Join(clauses), 0) == clauses
  {
    if |clauses| == 1 {
      SplitLast(clauses[0], 0);
    } else {
      assert DepthAfter(clauses[0], 0) == 0;
      SplitFirst(clauses[0], Join(clauses[1..]), 0);
      SplitOfSeparable(clauses[1..]);
    }
  }

  // ---------- one clause ----------

  datatype Assignment = Assignment(column: string, expression: string)

  function Past(s: string, c: char): string {
    if s != [] && s[0] == c then s[1..] else s
  }

  /** `column = expression`, the column perhaps quoted and made of characters of `inName`. */
  function Parse(clause: string, inName: char -> bool): Option<Assignment> {
    var s := Past(Past(AfterSpaces(clause), '`'), '"');
    var n := WordLength(s, inName);
    var t := AfterSpaces(Past(Past(s[n..], '`'), '"'));
    if n > 0 && t != [] && t[0] == '=' then Some(Assignment(s[..n], t[1..])) else None
  }

  /** The pattern of the rule; a clause of any other form is not looked at. */
  function ParseClause(clause: string): Option<Assignment> {
    Parse(clause, IsWordChar)
  }

  function Assignments(clauses: seq<string>): seq<Assignment> {
    if clauses == [] then [] else
      (match ParseClause(clauses[0]) case Some(a) => [a] case None => []) + Assignments(clauses[1..])
  }

  /** How a clause is laid out: white space in front, quotes around the column, white space before the equals sign. */
  datatype Layout = Layout(lead: string, open: string, close: string, gap: string)

  predicate AllSpaces(s: string) {
    forall k :: 0 <= k < |s| ==> IsSpace(s[k])
  }

  predicate IsQuotes(s: string) {
    s == "" || s == "`" || s == "\"" || s == "`\""
  }

  predicate IsLayout(l: Layout) {
    AllSpaces(l.lead) && IsQuotes(l.open) && IsQuotes(l.close) && AllSpaces(l.gap)
  }

  function Write(l: Layout, a: Assignment): string {
    l.lead + (l.open + (a.column + (l.close + (l.gap + ("=" + a.expression)))))
  }

  predicate IsName(w: string, inName: char -> bool) {
    w != [] && forall k :: 0 <= k < |w| ==> inName(w[k])
  }

  /** White space, quotes and the equals sign are not part of names. */
  ghost predicate IsNameSet(inName: char -> bool) {
    forall c: char :: inName(c) ==> !IsSpace(c) && c != '`' && c != '"' && c != '='
  }

  ghost predicate IsClause(clause: string, a: Assignment, inName: char -> bool) {
    exists l :: IsLayout(l) && IsName(a.column, inName) && Write(l, a) == clause
  }

  lemma AfterSpacesOf(lead: string, more: string)
    requires AllSpaces(lead) && (more == [] || !IsSpace(more[0]))
    ensures AfterSpaces(lead + more) == more
  {
    if lead == [] {
      assert lead + more == more;
    } else {
      assert (lead + more)[1..] == lead[1..] + more;
      AfterSpacesOf(lead[1..], more);
    }
  }

  lemma SpacesInFront(s: string) returns (lead: string)
    ensures AllSpaces(lead) && s == lead + AfterSpaces(s)
  {
    if s != [] && IsSpace(s[0]) {
      var rest := SpacesInFront(s[1..]);
      lead := [s[0]] + rest;
      assert s == [s[0]] + s[1..];
    } else {
      lead := [];
      assert s == lead + s;
    }
  }

  lemma PastQuotes(quotes: string, more: string)
    requires IsQuotes(quotes) && (more == [] || (more[0] != '`' && more[0] != '"'))
    ensures Past(Past(quotes + more, '`'), '"') == more
  {
    var s := quotes + more;
    assert quotes == "" ==> s == more;
    assert |quotes| == 1 ==> s[1..] == more;
    assert |quotes| == 2 ==> s[1..][1..] == more;
  }

  lemma QuotesInFront(s: string) returns (quotes: string)
    ensures IsQuotes(quotes) && s == quotes + Past(Past(s, '`'), '"')
  {
    if s != [] && s[0] == '`' {
      if |s| > 1 && s[1] == '"' {
        quotes := "`\"";
        assert s[1..][1..] == s[2..];
      } else {
        quotes := "`";
      }
    } else if s != [] && s[0] == '"' {
      quotes := "\"";
    } else {
      quotes := "";
    }
  }

  lemma {:induction false} WordLengthOf(w: string, more: string, inName: char -> bool)
    requires forall k :: 0 <= k < |w| ==> inName(w[k])
    requires more == [] || !inName(more[0])
    ensures WordLength(w + more, inName) == |w|
  {
    if w == [] {
      assert w + more == more;
    } else {
      assert (w + more)[0] == w[0] && (w + more)[1..] == w[1..] + more;
      WordLengthOf(w[1..], more, inName);
    }
  }

  lemma WordInFront(s: string, inName: char -> bool)
    ensures var n := WordLength(s, inName); forall k :: 0 <= k < n ==> inName(s[k])
  {
    if s != [] && inName(s[0]) {
      WordInFront(s[1..], inName);
      assert forall k :: 1 <= k < |s| ==> s[k] == s[1..][k - 1];
    }
  }

  lemma WrittenIsParsed(l: Layout, a: Assignment, inName: char -> bool)
    requires IsNameSet(inName) && IsLayout(l) && IsName(a.column, inName)
    ensures Parse(Write(l, a), inName) == Some(a)
  {
    hide AfterSpaces, WordLength, Past;
    var value := "=" + a.expression;
    var afterName := l.close + (l.gap + value);
    var name := a.column + afterName;
    assert name[0] == a.column[0] && inName(name[0]);
    assert (l.open + name)[0] == if l.open == "" then name[0] else l.open[0];
    assert !IsSpace('`') && !IsSpace('"') && !IsSpace('=');
    AfterSpacesOf(l.lead, l.open + name);
    PastQuotes(l.open, name);
    assert (l.gap + value)[0] == if l.gap == "" then '=' else l.gap[0];
    assert afterName[0] == if l.close == "" then (l.gap + value)[0] else l.close[0];
    assert !IsSpace('`') && !IsSpace('"');
    WordLengthOf(a.column, afterName, inName);
    assert name[..|a.column|] == a.column && name[|a.column|..] == afterName;
    PastQuotes(l.close, l.gap + value);
    AfterSpacesOf(l.gap, value);
    assert value[1..] == a.expression;
  }

  /** A clause is parsed to `a` if and only if it is `a` in one of the accepted layouts. */
  lemma ParseIsExact(clause: string, a: Assignment, inName: char -> bool)
    requires IsNameSet(inName)
    ensures Parse(clause, inName) == Some(a) <==> IsClause(clause, a, inName)
  {
    if IsClause(clause, a, inName) {
      var l :| IsLayout(l) && IsName(a.column, inName) && Write(l, a) == clause;
      WrittenIsParsed(l, a, inName);
    }
    ParsedIsWritten(clause, a, inName);
  }

  lemma ParsedIsWritten(clause: string, a: Assignment, inName: char -> bool)
    ensures Parse(clause, inName) == Some(a) ==> IsClause(clause, a, inName)
  {
    hide AfterSpaces, WordLength, Past, IsQuotes, AllSpaces;
    var lead := SpacesInFront(clause);
    var afterLead := AfterSpaces(clause);
    var open := QuotesInFront(afterLead);
    var s := Past(Past(afterLead, '`'), '"');
    var n := WordLength(s, inName);
    WordInFront(s, inName);
    var afterName := s[n..];
    var close := QuotesInFront(afterName);
    var u := Past(Past(afterName, '`'), '"');
    var gap := SpacesInFront(u);
    var t := AfterSpaces(u);
    if Parse(clause, inName) == Some(a) {
      assert s == a.column + afterName && t == "=" + t[1..];
      var l := Layout(lead, open, close, gap);
      assert IsLayout(l) && IsName(a.column, inName);
      Assembled(l, a, clause, afterLead, s, afterName, u, t);
    }
  }

  lemma Assembled(l: Layout, a: Assignment, clause: string, afterLead: string, s: string, afterName: string,
                  u: string, t: string)
    requires clause == l.lead + afterLead && afterLead == l.open + s && s == a.column + afterName
    requires afterName == l.close + u && u == l.gap + t && t == "=" + a.expression
    ensures Write(l, a) == clause
  {
  }

  /** A clause on a qualified column is not looked at. */
  lemma QualifiedColumnIsSkipped(table: string, clause: string)
    requires IsWord(table)
    ensures ParseClause(table + "." + clause) == None
  {
    var s, more := table + "." + clause, "." + clause;
    assert s == table + more;
    assert IsWordChar(s[0]) by { assert s[0] == table[0]; }
    assert AfterSpaces(s) == s && Past(s, '`') == s && Past(s, '"') == s;
    WordLengthOf(table, more, IsWordChar);
    assert s[|table|..] == more && AfterSpaces(more) == more;
  }

  lemma WordsAreNames()
    ensures IsNameSet(IsWordChar)
  {
  }

  // ---------- the rule ----------

  /** Some expression names a column that an earlier clause assigns. */
  predicate Fires(clauses: seq<Assignment>) {
    exists i, j :: 0 <= i < j < |clauses| && NamesAt(clauses, j, i)
  }

  predicate NamesAt(clauses: seq<Assignment>, j: nat, i: nat)
    requires i < |clauses| && j < |clauses|
  {
    ContainsWord(clauses[j].expression, clauses[i].column)
  }

  /** The split that goes on from some finished clauses and the start of one more. */
  function Resumed(clauses: seq<string>, current: string, rest: seq<string>): seq<string>
    requires rest != []
  {
    clauses + [current + rest[0]] + rest[1..]
  }

  lemma ResumedFresh(clauses: seq<string>, rest: seq<string>)
    requires rest != []
    ensures Resumed(clauses, "", rest) == clauses + rest
  {
    assert "" + rest[0] == rest[0];
  }

  method SplitClauses(setText: string) returns (clauses: seq<string>)
    ensures clauses == Split(setText, 0)
  {
    clauses := [];
    var depth := 0;
    var current := "";
    assert setText[0..] == setText;
    ResumedFresh([], Split(setText, 0));
    for i := 0 to |setText|
      invariant Resumed(clauses, current, Split(setText[i..], depth)) == Split(setText, 0)
    {
      ghost var rest := Split(setText[i..], depth);
      var character := setText[i];
      assert setText[i..][1..] == setText[i + 1..];
      if character == '(' { depth := depth + 1; }
      if character == ')' { depth := depth - 1; }
      if character == ',' && depth == 0 {
        assert rest[0] == [] && rest[1..] == Split(setText[i + 1..], depth);
        assert current + rest[0] == current;
        ResumedFresh(clauses + [current], rest[1..]);
        assert Resumed(clauses + [current], "", rest[1..]) == Resumed(clauses, current, rest);
        clauses := clauses + [current];
        current := "";
      } else {
        assert current + rest[0] == current + [character] + rest[0][1..];
        assert Resumed(clauses, current + [character], Split(setText[i + 1..], depth)) ==
               Resumed(clauses, current, rest);
        current := current + [character];
      }
    }
    assert setText[|setText|..] == [] && current + [] == current;
    clauses := clauses + [current];
  }

  predicate NamesOneOf(expression: string, columns: seq<string>) {
    exists k :: 0 <= k < |columns| && ContainsWord(expression, columns[k])
  }

  lemma NoAssignmentsInSpace(setText: string)
    requires AfterSpaces(setText) == []
    ensures Assignments(Split(setText, 0)) == []
  {
    NoCommaInSpace(setText);
    SplitLast(setText, 0);
  }

  lemma NoCommaInSpace(s: string)
    requires AfterSpaces(s) == []
    ensures !HasTopComma(s, 0)
  {
  }

  method RuleTest(setText: string) returns (fires: bool)
    ensures fires == Fires(Assignments(Split(setText, 0)))
  {
    if AfterSpaces(setText) == [] {
      NoAssignmentsInSpace(setText);
      return false;
    }
    var clauses := SplitClauses(setText);
    fires := TestClauses(clauses);
  }

  lemma AssignmentsStep(clauses: seq<string>, i: nat)
    requires i < |clauses|
    ensures Assignments(clauses[i..]) ==
            (match ParseClause(clauses[i]) case Some(a) => [a] case None => []) + Assignments(clauses[i + 1..])
  {
    hide ParseClause;
    assert clauses[i..][1..] == clauses[i + 1..];
  }

  lemma StillSilent(seen: seq<Assignment>, a: Assignment, columns: seq<string>)
    requires !Fires(seen) && !NamesOneOf(a.expression, columns)
    requires |columns| == |seen| && forall k :: 0 <= k < |seen| ==> columns[k] == seen[k].column
    ensures !Fires(seen + [a])
  {
    hide ContainsWord;
    var more := seen + [a];
    forall p, q | 0 <= p < q < |more| ensures !NamesAt(more, q, p) {
      assert more[p].column == columns[p];
      assert q < |seen| ==> !NamesAt(seen, q, p);
    }
  }

  /** Fires on the first clause that reads a column one of the clauses before it assigns. */
  method TestClauses(clauses: seq<string>) returns (fires: bool)
    ensures fires == Fires(Assignments(clauses))
  {
    hide ParseClause, ContainsWord;
    var columns: seq<string> := [];
    ghost var all := Assignments(clauses);
    ghost var seen: seq<Assignment> := [];
    assert clauses[0..] == clauses;
    for i := 0 to |clauses|
      invariant all == seen + Assignments(clauses[i..])
      invariant |columns| == |seen| && forall k :: 0 <= k < |seen| ==> columns[k] == seen[k].column
      invariant !Fires(seen)
    {
      AssignmentsStep(clauses, i);
      var found := ParseClause(clauses[i]);
      if found.Some? {
        var a := found.value;
        ghost var more := seen + [a];
        assert all == more + Assignments(clauses[i + 1..]);
        if NamesOneOf(a.expression, columns) {
          ghost var k :| 0 <= k < |columns| && ContainsWord(a.expression, columns[k]);
          assert all[k].column == columns[k] && all[|seen|] == a && NamesAt(all, |seen|, k);
          return true;
        }
        StillSilent(seen, a, columns);
        columns := columns + [a.column];
        seen := more;
      }
    }
    assert all == seen;
    return false;
  }
}
