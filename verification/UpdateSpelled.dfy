/** The rule's verdict read off the text itself: commas and parentheses by counting, words letter by letter. */
module UpdateSpelled {
  import opened Wrappers
  import opened SqlText
  import opened UpdateRule
  import opened UpdateEngines
  import opened UpdateText

  // ---------- where the cuts are ----------

  /** A comma with as many opening as closing parentheses before it. */
  predicate IsCut(view: string, k: nat) {
    k < |view| && view[k] == ',' && multiset(view[..k])['('] == multiset(view[..k])[')']
  }

  function Start(ps: seq<nat>, from: nat, i: nat): nat
    requires i <= |ps|
  {
    if i == 0 then from else ps[i - 1] + 1
  }

  function End(text: string, ps: seq<nat>, i: nat): nat
    requires i <= |ps|
  {
    if i == |ps| then |text| else ps[i]
  }

  /** `cs` are the stretches of the text after `from` between the cuts of `view`, which are at the positions `ps`. */
  predicate IsSlicedAt(text: string, view: string, from: nat, cs: seq<string>, ps: seq<nat>) {
    && |cs| == |ps| + 1
    && (forall i :: 0 <= i < |ps| ==> from <= ps[i] < |text| && IsCut(view, ps[i]))
    && (forall i, j :: 0 <= i < j < |ps| ==> ps[i] < ps[j])
    && (forall k :: from <= k < |text| && IsCut(view, k) ==> k in ps)
    && forall i :: 0 <= i <= |ps| ==>
         Start(ps, from, i) <= End(text, ps, i) <= |text| && cs[i] == text[Start(ps, from, i)..End(text, ps, i)]
  }

  /** Splitting a text where the view of it says. */
  function SplitBy(text: string, view: string, depth: int): (clauses: seq<string>)
    requires |text| == |view|
    ensures clauses != []
  {
    if text == [] then [[]]
    else if view[0] == ',' && depth == 0 then [[]] + SplitBy(text[1..], view[1..], depth)
    else
      var rest := SplitBy(text[1..], view[1..], Nest(depth, view[0]));
      [[text[0]] + rest[0]] + rest[1..]
  }

  lemma {:induction false} SplitsByItself(text: string, depth: int)
    ensures SplitBy(text, text, depth) == Split(text, depth)
  {
    if text != [] {
      SplitsByItself(text[1..], if text[0] == ',' && depth == 0 then depth else Nest(depth, text[0]));
    }
  }

  lemma {:induction false} CutsByView(text: string, depth: int, st: Inside)
    ensures SplitBy(text, Visible(text, st), depth) == Cut(text, depth, st)
  {
    if text != [] {
      var c, next, v := Seen(st, text[0]), Next(st, text[0]), Visible(text, st);
      assert v[0] == c && v[1..] == Visible(text[1..], next);
      CutsByView(text[1..], if c == ',' && depth == 0 then depth else Nest(depth, c), next);
      hide Seen, Next, Visible;
    }
  }

  function Balance(s: string): int {
    multiset(s)['('] as int - multiset(s)[')'] as int
  }

  lemma BalanceStep(view: string, i: nat)
    requires i < |view|
    ensures Balance(view[..i + 1]) == Nest(Balance(view[..i]), view[i])
  {
    assert view[..i + 1] == view[..i] + [view[i]];
  }

  lemma SliceMore(text: string, view: string, i: nat, cs: seq<string>, ps: seq<nat>)
    requires i < |text| == |view| && IsSlicedAt(text, view, i + 1, cs, ps)
    ensures if IsCut(view, i) then IsSlicedAt(text, view, i, [[]] + cs, [i] + ps)
            else IsSlicedAt(text, view, i, [[text[i]] + cs[0]] + cs[1..], ps)
  {
    hide IsCut;
    if IsCut(view, i) {
      var more := [i] + ps;
      forall k: nat | k <= |more|
        ensures Start(more, i, k) <= End(text, more, k) <= |text|
        ensures ([[]] + cs)[k] == text[Start(more, i, k)..End(text, more, k)]
      {
        if k > 0 {
          var j: nat := k - 1;
          assert Start(more, i, k) == Start(ps, i + 1, j) && End(text, more, k) == End(text, ps, j);
        }
      }
    } else {
      var e := End(text, ps, 0);
      assert text[i..e] == [text[i]] + text[i + 1..e];
      forall k | 0 < k <= |ps| ensures Start(ps, i, k) == Start(ps, i + 1, k) { }
    }
  }

  lemma {:induction false} Slices(text: string, view: string, i: nat) returns (ps: seq<nat>)
    requires i <= |text| == |view|
    ensures IsSlicedAt(text, view, i, SplitBy(text[i..], view[i..], Balance(view[..i])), ps)
    decreases |text| - i
  {
    if i == |text| {
      ps := [];
      assert text[i..] == [];
    } else {
      ps := Slices(text, view, i + 1);
      BalanceStep(view, i);
      assert text[i..][1..] == text[i + 1..] && view[i..][1..] == view[i + 1..];
      assert IsCut(view, i) <==> view[i] == ',' && Balance(view[..i]) == 0;
      hide IsSlicedAt, Balance, IsCut;
      var cs := SplitBy(text[i + 1..], view[i + 1..], Balance(view[..i + 1]));
      SliceMore(text, view, i, cs, ps);
      if IsCut(view, i) { ps := [i] + ps; }
    }
  }

  /** The rule's clauses are the stretches between the commas that stand after balanced parentheses. */
  lemma SplitIsByCounting(text: string) returns (ps: seq<nat>)
    ensures IsSlicedAt(text, text, 0, Split(text, 0), ps)
  {
    SplitsByItself(text, 0);
    ps := Slices(text, text, 0);
    assert text[0..] == text && text[..0] == [];
  }

  /** The engines' clauses are the same of the text with literals and parameters blanked. */
  lemma CutIsByCounting(text: string) returns (ps: seq<nat>)
    ensures IsSlicedAt(text, Visible(text, Code), 0, EngineClauses(text), ps)
  {
    var v := Visible(text, Code);
    CutsByView(text, 0, Code);
    ps := Slices(text, v, 0);
    assert text[0..] == text && v[0..] == v && v[..0] == [];
  }

  // ---------- words letter by letter ----------

  /** Letters, digits and the underscore are characters of words; white space and the signs of SQL are not. */
  lemma WordsAndSpaces(c: char)
    ensures var code := c as int;
            && (IsWordChar(c) <==> 48 <= code < 58 || 65 <= code < 91 || code == 95 || 97 <= code < 123)
            && (IsSpace(c) <==>
                  || 9 <= code < 14 || code == 32 || code == 160 || code == 5760 || 8192 <= code < 8203
                  || code in {8232, 8233, 8239, 8287, 12288, 65279})
  {
  }

  /** The same character, or the same letter from A to Z in the other case. */
  predicate IsSameLetter(x: char, y: char) {
    x == y
    || ('a' <= x <= 'z' && 'A' <= y <= 'Z' && x as int - y as int == 32)
    || ('a' <= y <= 'z' && 'A' <= x <= 'Z' && y as int - x as int == 32)
  }

  /** `w` is in the text, in any case, and no longer word is. */
  predicate MentionsAt(text: string, w: string, i: nat) {
    && i + |w| <= |text|
    && (forall k :: 0 <= k < |w| ==> IsSameLetter(text[i + k], w[k]))
    && (i > 0 ==> !IsWordChar(text[i - 1]))
    && (i + |w| < |text| ==> !IsWordChar(text[i + |w|]))
  }

  lemma FoldIsSameLetter(x: char, y: char)
    ensures Fold(x) == Fold(y) <==> IsSameLetter(x, y)
  {
  }

  lemma WordIsMentioned(text: string, w: string, i: nat)
    ensures StandsAt(text, w, i, IsWordChar) <==> MentionsAt(text, w, i)
  {
    if i + |w| <= |text| {
      var s := text[i..i + |w|];
      forall k | 0 <= k < |w| ensures FoldAll(s)[k] == FoldAll(w)[k] <==> IsSameLetter(text[i + k], w[k]) {
        FoldIsSameLetter(text[i + k], w[k]);
      }
      assert |FoldAll(s)| == |FoldAll(w)| == |w|;
      if MentionsAt(text, w, i) { assert FoldAll(s) == FoldAll(w); }
    }
  }

  ghost predicate Mentions(text: string, w: string) {
    exists i :: MentionsAt(text, w, i)
  }

  /** A pattern between word boundaries, with the `i` flag, finds a word wherever it stands in whatever case. */
  lemma WordsAreMentioned(text: string, w: string)
    ensures ContainsWord(text, w) <==> Mentions(text, w)
  {
    hide StandsAt;
    if ContainsWord(text, w) {
      var i :| 0 <= i <= |text| && StandsAt(text, w, i, IsWordChar);
      WordIsMentioned(text, w, i);
    }
    if Mentions(text, w) {
      var i :| MentionsAt(text, w, i);
      WordIsMentioned(text, w, i);
    }
  }

  // ---------- the verdict ----------

  /** From `start` to `end` the text has no cut, and it is cut at both ends or ends there. */
  predicate IsSlice(text: string, start: nat, end: nat) {
    && start <= end <= |text| && (start == 0 || IsCut(text, start - 1)) && (end == |text| || IsCut(text, end))
    && forall k :: start <= k < end ==> !IsCut(text, k)
  }

  /** That stretch of the text is a clause: `column = expression` with white space and quotes as the pattern allows. */
  ghost predicate HasClause(text: string, start: nat, end: nat, a: Assignment) {
    IsSlice(text, start, end) && IsClause(text[start..end], a, IsWordChar)
  }

  ghost predicate Offends(text: string, s: nat, e: nat, a: Assignment, s': nat, e': nat, b: Assignment) {
    && HasClause(text, s, e, a) && HasClause(text, s', e', b) && e < s'
    && Mentions(b.expression, a.column)
  }

  /** Two clauses in order, parsed. */
  ghost predicate ParsedPair(cs: seq<string>, i: nat, j: nat, a: Assignment, b: Assignment) {
    i < j < |cs| && ParseClause(cs[i]) == Some(a) && ParseClause(cs[j]) == Some(b)
  }

  lemma ParsedMember(cs: seq<string>, b: Assignment)
    ensures b in Assignments(cs) <==> exists j :: 0 <= j < |cs| && ParseClause(cs[j]) == Some(b)
  {
    hide ParseClause;
    if cs != [] {
      ParsedMember(cs[1..], b);
      assert forall j :: 1 <= j < |cs| ==> cs[j] == cs[1..][j - 1];
      if b in Assignments(cs[1..]) {
        var j :| 0 <= j < |cs[1..]| && ParseClause(cs[1..][j]) == Some(b);
        assert cs[j + 1] == cs[1..][j];
      }
    }
  }

  lemma {:induction false} FiringPair(cs: seq<string>) returns (i: nat, j: nat, a: Assignment, b: Assignment)
    requires Fires(Assignments(cs))
    ensures ParsedPair(cs, i, j, a, b) && ContainsWord(b.expression, a.column)
  {
    hide ParseClause, ContainsWord;
    var rest := cs[1..];
    var first := ParseClause(cs[0]);
    assert first.None? ==> Assignments(cs) == Assignments(rest);
    assert first.Some? ==> Assignments(cs) == [first.value] + Assignments(rest);
    if first.Some? { FiresStep(first.value, Assignments(rest)); }
    if Fires(Assignments(rest)) {
      i, j, a, b := FiringPair(rest);
      i, j := i + 1, j + 1;
    } else {
      a := first.value;
      var later := Assignments(rest);
      var k :| 0 <= k < |later| && ContainsWord(later[k].expression, a.column);
      b := later[k];
      ParsedMember(rest, b);
      var m :| 0 <= m < |rest| && ParseClause(rest[m]) == Some(b);
      i, j := 0, m + 1;
    }
  }

  lemma {:induction false} PairFires(cs: seq<string>, i: nat, j: nat, a: Assignment, b: Assignment)
    requires ParsedPair(cs, i, j, a, b) && ContainsWord(b.expression, a.column)
    ensures Fires(Assignments(cs))
  {
    hide ParseClause, ContainsWord;
    var rest := cs[1..];
    var first := ParseClause(cs[0]);
    assert first.None? ==> Assignments(cs) == Assignments(rest);
    assert first.Some? ==> Assignments(cs) == [first.value] + Assignments(rest);
    if first.Some? { FiresStep(first.value, Assignments(rest)); }
    if i > 0 {
      PairFires(rest, i - 1, j - 1, a, b);
    } else {
      ParsedMember(rest, b);
      assert b in Assignments(rest) by { assert rest[j - 1] == cs[j]; }
      var later := Assignments(rest);
      var k :| 0 <= k < |later| && later[k] == b;
      assert NamedLater(a, later);
    }
  }

  lemma SliceOfIndex(text: string, cs: seq<string>, ps: seq<nat>, i: nat)
    requires IsSlicedAt(text, text, 0, cs, ps) && i < |cs|
    ensures IsSlice(text, Start(ps, 0, i), End(text, ps, i)) && cs[i] == text[Start(ps, 0, i)..End(text, ps, i)]
  {
    hide IsCut;
    forall m | 0 <= m < |ps| ensures ps[m] < Start(ps, 0, i) || End(text, ps, i) <= ps[m] { }
  }

  lemma IndexOfSlice(text: string, cs: seq<string>, ps: seq<nat>, start: nat, end: nat) returns (i: nat)
    requires IsSlicedAt(text, text, 0, cs, ps) && IsSlice(text, start, end)
    ensures i < |cs| && start == Start(ps, 0, i) && end == End(text, ps, i)
  {
    hide IsCut;
    if start == 0 {
      i := 0;
    } else {
      assert start - 1 in ps;
      var m :| 0 <= m < |ps| && ps[m] == start - 1;
      i := m + 1;
    }
    SliceOfIndex(text, cs, ps, i);
  }

  /**
   * The rule fires on a SET text if and only if one clause of it, between commas outside all parentheses, mentions as a
   * whole word, in whatever case, the column that an earlier clause assigns.
   */
  lemma VerdictIsMentioning(text: string)
    ensures Verdict(text) <==> exists s, e, a, s', e', b :: Offends(text, s, e, a, s', e', b)
  {
    hide Split, Assignments, Fires, IsSlicedAt, IsClause, Mentions, ContainsWord, Parse, IsSlice;
    var cs := Split(text, 0);
    var ps := SplitIsByCounting(text);
    WordsAreNames();
    if Verdict(text) {
      var i, j, a, b := FiringPair(cs);
      SliceOfIndex(text, cs, ps, i);
      SliceOfIndex(text, cs, ps, j);
      ParseIsExact(cs[i], a, IsWordChar);
      ParseIsExact(cs[j], b, IsWordChar);
      WordsAreMentioned(b.expression, a.column);
      InTurn(text, cs, ps, i, j);
      assert Offends(text, Start(ps, 0, i), End(text, ps, i), a, Start(ps, 0, j), End(text, ps, j), b);
    }
    if s, e, a, s', e', b :| Offends(text, s, e, a, s', e', b) {
      var i := IndexOfSlice(text, cs, ps, s, e);
      var j := IndexOfSlice(text, cs, ps, s', e');
      SliceOfIndex(text, cs, ps, i);
      SliceOfIndex(text, cs, ps, j);
      ParseIsExact(cs[i], a, IsWordChar);
      ParseIsExact(cs[j], b, IsWordChar);
      WordsAreMentioned(b.expression, a.column);
      InTurnBack(text, cs, ps, i, j);
      PairFires(cs, i, j, a, b);
    }
  }

  lemma InTurn(text: string, cs: seq<string>, ps: seq<nat>, i: nat, j: nat)
    requires IsSlicedAt(text, text, 0, cs, ps) && i < j < |cs|
    ensures End(text, ps, i) < Start(ps, 0, j)
  {
    assert i < j - 1 ==> ps[i] < ps[j - 1];
  }

  lemma InTurnBack(text: string, cs: seq<string>, ps: seq<nat>, i: nat, j: nat)
    requires IsSlicedAt(text, text, 0, cs, ps) && i < |cs| && j < |cs| && End(text, ps, i) < Start(ps, 0, j)
    ensures i < j
  {
    assert forall m :: 0 <= m < i < |ps| ==> ps[m] < ps[i];
  }
}
