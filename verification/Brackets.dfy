/** Bracketed groups in a text: taking out parenthesised subqueries, and finding the block of a brace. */
module Brackets {
  import opened SqlText

  /** Opening minus closing brackets. */
  function Level(s: string, open: char, close: char): int {
    if s == [] then 0 else
      Level(s[..|s| - 1], open, close)
      + (if s[|s| - 1] == open then 1 else if s[|s| - 1] == close then -1 else 0)
  }

  /** Opens with its first character and is never closed again before position `n`. */
  predicate StaysOpen(s: string, n: int, open: char, close: char)
    requires n <= |s|
  {
    s != [] && s[0] == open && forall k :: 0 < k < n ==> Level(s[..k], open, close) > 0
  }

  /** A bracket and all that comes up to the one that closes it. */
  predicate IsGroup(g: string, open: char, close: char) {
    StaysOpen(g, |g|, open, close) && Level(g, open, close) == 0
  }

  /** A bracket that is never closed, and all that comes after it. */
  predicate IsTail(t: string, open: char, close: char) {
    StaysOpen(t, |t|, open, close) && Level(t, open, close) > 0
  }

  /** The length of the group that `s` opens with, read on from position `i` at level `d`; 0 when it never closes. */
  function GroupLength(s: string, i: nat, d: nat, open: char, close: char): (n: nat)
    requires i <= |s|
    ensures n <= |s|
    decreases |s| - i
  {
    if i == |s| then 0
    else if s[i] == open then GroupLength(s, i + 1, d + 1, open, close)
    else if s[i] == close then if d <= 1 then i + 1 else GroupLength(s, i + 1, d - 1, open, close)
    else GroupLength(s, i + 1, d, open, close)
  }

  lemma {:induction false} GroupLengthIsRight(s: string, i: nat, d: nat, open: char, close: char)
    requires open != close && 0 < i <= |s| && 0 < d
    requires StaysOpen(s, i, open, close) && Level(s[..i], open, close) == d
    ensures var n := GroupLength(s, i, d, open, close);
            if n == 0 then IsTail(s, open, close) else IsGroup(s[..n], open, close)
    decreases |s| - i
  {
    if i == |s| {
      assert s[..i] == s;
    } else {
      assert s[..i + 1][..i] == s[..i];
      forall k | 0 < k < i + 1 ensures Level(s[..k], open, close) > 0 { }
      if s[i] == close && d == 1 {
        var g := s[..i + 1];
        forall k | 0 < k < |g| ensures Level(g[..k], open, close) > 0 { assert g[..k] == s[..k]; }
      } else {
        GroupLengthIsRight(s, i + 1, if s[i] == open then d + 1 else if s[i] == close then d - 1 else d, open, close);
      }
    }
  }

  lemma LevelOfOne(s: string, open: char, close: char)
    requires s != [] && s[0] == open
    ensures Level(s[..1], open, close) == 1
  {
    assert s[..1][..0] == [];
  }

  /** Where the group at the start of `s` ends, if it does. */
  function GroupAtStart(s: string, open: char, close: char): (n: nat)
    requires s != []
    ensures n <= |s|
  {
    GroupLength(s, 1, 1, open, close)
  }

  lemma GroupAtStartIsRight(s: string, open: char, close: char)
    requires open != close && s != [] && s[0] == open
    ensures var n := GroupAtStart(s, open, close);
            if n == 0 then IsTail(s, open, close) else IsGroup(s[..n], open, close)
  {
    LevelOfOne(s, open, close);
    GroupLengthIsRight(s, 1, 1, open, close);
  }

  lemma PrefixesOfPrefixes(s: string)
    ensures s[..|s|] == s && forall a, b :: 0 <= a <= b <= |s| ==> s[..b][..a] == s[..a]
  {
  }

  /** No group is a proper beginning of another, nor of a tail. */
  lemma GroupIsUnique(s: string, m: nat, n: nat, open: char, close: char)
    requires m <= |s| && n <= |s| && IsGroup(s[..m], open, close)
    requires IsGroup(s[..n], open, close) || (n == |s| && IsTail(s, open, close))
    ensures m == n
  {
    PrefixesOfPrefixes(s);
  }

  // ---------- subqueries ----------

  datatype Piece = Outside(c: char) | Group(text: string) | Tail(text: string)

  function TextOf(p: Piece): string {
    if p.Outside? then [p.c] else p.text
  }

  function Show(ps: seq<Piece>): string {
    if ps == [] then [] else TextOf(ps[0]) + Show(ps[1..])
  }

  /** Characters outside all parentheses, whole groups, and at most one unclosed tail at the end. */
  predicate IsReading(ps: seq<Piece>) {
    ps == [] ||
    (IsReading(ps[1..]) &&
     match ps[0]
     case Outside(c) => c != '('
     case Group(text) => IsGroup(text, '(', ')')
     case Tail(text) => IsTail(text, '(', ')') && |ps| == 1)
  }

  function FirstPiece(s: string): (p: Piece)
    requires s != []
    ensures 0 < |TextOf(p)| <= |s| && TextOf(p) == s[..|TextOf(p)|]
  {
    if s[0] != '(' then Outside(s[0])
    else
      var n := GroupAtStart(s, '(', ')');
      if n == 0 then Tail(s) else Group(s[..n])
  }

  /** The pieces of a text. */
  function Read(s: string): seq<Piece>
    decreases |s|
  {
    if s == [] then [] else [FirstPiece(s)] + Read(s[|TextOf(FirstPiece(s))|..])
  }

  lemma FirstPieceIsRight(s: string)
    requires s != []
    ensures var p := FirstPiece(s);
            match p
            case Outside(c) => c != '('
            case Group(text) => IsGroup(text, '(', ')')
            case Tail(text) => IsTail(text, '(', ')') && text == s
  {
    if s[0] == '(' { GroupAtStartIsRight(s, '(', ')'); }
  }

  /** Every text can be read. */
  lemma {:induction false} ReadIsReading(s: string)
    ensures IsReading(Read(s)) && Show(Read(s)) == s
    decreases |s|
  {
    hide FirstPiece, IsGroup, IsTail, Show;
    NoPieces();
    if s != [] {
      var p := FirstPiece(s);
      var n := |TextOf(p)|;
      FirstPieceIsRight(s);
      ReadIsReading(s[n..]);
      OneMorePiece(p, Read(s[n..]));
      assert ([p] + Read(s[n..]))[1..] == Read(s[n..]);
      assert s == s[..n] + s[n..];
    }
  }

  lemma NoPieces()
    ensures Show([]) == []
  {
  }

  lemma FirstPieceOf(p: Piece, following: string)
    requires match p
             case Outside(c) => c != '('
             case Group(text) => IsGroup(text, '(', ')')
             case Tail(text) => IsTail(text, '(', ')') && following == []
    ensures FirstPiece(TextOf(p) + following) == p
  {
    hide GroupAtStart, Level;
    var s := TextOf(p) + following;
    if !p.Outside? {
      GroupAtStartIsRight(s, '(', ')');
      var n := GroupAtStart(s, '(', ')');
      assert s[..|p.text|] == p.text && s[..|s|] == s;
      if p.Group? {
        GroupIsUnique(s, |p.text|, if n == 0 then |s| else n, '(', ')');
      } else if n > 0 {
        GroupIsUnique(s, n, |s|, '(', ')');
      }
    }
  }

  lemma OneMorePiece(p: Piece, ps: seq<Piece>)
    ensures Show([p] + ps) == TextOf(p) + Show(ps)
    ensures ReducedAll([p] + ps) == [Reduced(p)] + ReducedAll(ps)
  {
    hide TextOf, Reduced;
    assert ([p] + ps)[1..] == ps;
  }

  /** In one way only. */
  lemma {:induction false} ReadingIsUnique(ps: seq<Piece>)
    requires IsReading(ps)
    ensures ps == Read(Show(ps))
  {
    hide FirstPiece, IsGroup, IsTail, Show, TextOf;
    NoPieces();
    if ps != [] {
      var following := Show(ps[1..]);
      assert ps == [ps[0]] + ps[1..];
      OneMorePiece(ps[0], ps[1..]);
      FirstPieceOf(ps[0], following);
      assert Show(ps)[|TextOf(ps[0])|..] == following;
      ReadingIsUnique(ps[1..]);
    }
  }

  /** A group with a SELECT of its own becomes one space; everything else stays. */
  function Reduced(p: Piece): Piece {
    if p.Group? && ContainsWord(p.text, "select") then Outside(' ') else p
  }

  function ReducedAll(ps: seq<Piece>): seq<Piece> {
    seq(|ps|, k requires 0 <= k < |ps| => Reduced(ps[k]))
  }

  /** `stripSubqueries`, from the reading of its input. */
  function Strip(s: string): string {
    Show(ReducedAll(Read(s)))
  }

  lemma {:induction false} ReducedIsReading(ps: seq<Piece>)
    requires IsReading(ps)
    ensures IsReading(ReducedAll(ps))
  {
    hide ContainsWord, IsGroup, IsTail;
    if ps != [] {
      ReducedIsReading(ps[1..]);
      assert ReducedAll(ps)[1..] == ReducedAll(ps[1..]);
    }
  }

  /**
   * The stripped text reads as the same pieces with the subqueries gone, so no parenthesised group of it holds a
   * SELECT and stripping it again changes nothing.
   */
  lemma StripLeavesNoSubquery(s: string)
    ensures Read(Strip(s)) == ReducedAll(Read(s))
    ensures forall p :: p in Read(Strip(s)) && p.Group? ==> !ContainsWord(p.text, "select")
    ensures Strip(Strip(s)) == Strip(s)
  {
    hide ContainsWord, Read, Show, IsReading;
    var ps := Read(s);
    ReadIsReading(s);
    ReducedIsReading(ps);
    ReadingIsUnique(ReducedAll(ps));
    assert ReducedAll(ReducedAll(ps)) == ReducedAll(ps);
  }

  function Remaining(s: string, i: nat): string
    requires i <= |s|
  {
    Strip(s[i..])
  }

  lemma RemainingStep(s: string, i: nat, p: Piece)
    requires i < |s| && FirstPiece(s[i..]) == p
    ensures i + |TextOf(p)| <= |s|
    ensures Remaining(s, i) == TextOf(Reduced(p)) + Remaining(s, i + |TextOf(p)|)
  {
    hide Reduced, FirstPiece, Show, ReducedAll, TextOf;
    var t, n := s[i..], |TextOf(p)|;
    assert t[n..] == s[i + n..];
    assert Read(t) == [p] + Read(t[n..]);
    OneMorePiece(p, Read(t[n..]));
    OneMorePiece(Reduced(p), ReducedAll(Read(t[n..])));
  }

  /** What the loop knows inside a group that opened at `start`. */
  predicate InGroup(s: string, start: nat, i: nat, depth: nat) {
    && start < i <= |s| && s[start] == '(' && depth > 0
    && GroupAtStart(s[start..], '(', ')') == GroupLength(s[start..], i - start, depth, '(', ')')
  }

  lemma StillInGroup(s: string, start: nat, i: nat, depth: nat)
    requires InGroup(s, start, i, depth) && i < |s|
    ensures s[i] == '(' ==> InGroup(s, start, i + 1, depth + 1)
    ensures s[i] == ')' && depth > 1 ==> InGroup(s, start, i + 1, depth - 1)
    ensures s[i] == ')' && depth == 1 ==> FirstPiece(s[start..]) == Group(s[start..i + 1])
    ensures s[i] != '(' && s[i] != ')' ==> InGroup(s, start, i + 1, depth)
  {
    assert s[start..][i - start] == s[i];
    assert s[start..][..i + 1 - start] == s[start..i + 1];
  }

  lemma NeverClosed(s: string, start: nat, depth: nat)
    requires InGroup(s, start, |s|, depth)
    ensures FirstPiece(s[start..]) == Tail(s[start..])
  {
  }

  method StripSubqueries(sql: string) returns (out: string)
    ensures out == Strip(sql)
  {
    hide Remaining, Strip, InGroup, FirstPiece, ContainsWord;
    out := "";
    var depth := 0;
    var start := -1;
    WholeText(sql);
    for i := 0 to |sql|
      invariant 0 <= depth && (depth == 0 ==> out + Remaining(sql, i) == Strip(sql))
      invariant depth > 0 ==> 0 <= start < i && InGroup(sql, start, i, depth)
                              && out + Remaining(sql, start) == Strip(sql)
    {
      var ch := sql[i];
      if depth > 0 { StillInGroup(sql, start, i, depth); }
      if ch == '(' {
        if depth == 0 {
          start := i;
          OpensGroup(sql, i);
        }
        depth := depth + 1;
      } else if ch == ')' && depth > 0 {
        depth := depth - 1;
        if depth == 0 {
          var inner := sql[start..i + 1];
          RemainingStep(sql, start, Group(inner));
          out := out + if ContainsWord(inner, "select") then " " else inner;
          start := -1;
        }
      } else if depth == 0 {
        PlainPiece(sql, i);
        RemainingStep(sql, i, Outside(ch));
        out := out + [ch];
      }
    }
    if depth > 0 && start >= 0 {
      NeverClosed(sql, start, depth);
      RemainingStep(sql, start, Tail(sql[start..]));
      out := out + sql[start..];
    }
    WholeText(sql);
  }

  lemma WholeText(s: string)
    ensures Remaining(s, 0) == Strip(s) && Remaining(s, |s|) == []
  {
    assert s[0..] == s && s[|s|..] == [];
  }

  lemma OpensGroup(s: string, i: nat)
    requires i < |s| && s[i] == '('
    ensures InGroup(s, i, i + 1, 1)
  {
  }

  lemma PlainPiece(s: string, i: nat)
    requires i < |s| && s[i] != '('
    ensures FirstPiece(s[i..]) == Outside(s[i])
  {
  }

  // ---------- the block of a brace ----------

  /** `body` follows the brace at `open`, is balanced, never closes more than it opened, and is itself closed. */
  predicate IsBlockBody(source: string, open: nat, body: string) {
    && open < |source| && source[open] == '{'
    && open + 1 + |body| < |source|
    && source[open + 1..open + 1 + |body|] == body && source[open + 1 + |body|] == '}'
    && Level(body, '{', '}') == 0
    && forall k :: 0 <= k < |body| ==> Level(body[..k], '{', '}') >= 0
  }

  lemma LevelAfterBrace(body: string)
    ensures Level("{" + body, '{', '}') == 1 + Level(body, '{', '}')
  {
    var s := "{" + body;
    if body == [] {
      assert s == "{";
      assert s[..0] == [];
    } else {
      assert s[..|s| - 1] == "{" + body[..|body| - 1];
      LevelAfterBrace(body[..|body| - 1]);
    }
  }

  /** A block body is what stands inside a group of braces. */
  lemma BlockBodyIsGroup(source: string, open: nat, body: string)
    requires open < |source| && source[open] == '{' && open + 1 + |body| < |source|
    requires source[open + 1..open + 1 + |body|] == body
    ensures IsBlockBody(source, open, body) <==> IsGroup(source[open..open + |body| + 2], '{', '}')
  {
    var g := source[open..open + |body| + 2];
    assert g[..|g| - 1] == "{" + body;
    assert g[|g| - 1] == source[open + 1 + |body|];
    LevelAfterBrace(body);
    forall k | 0 <= k <= |body| ensures Level(g[..k + 1], '{', '}') == 1 + Level(body[..k], '{', '}') {
      assert g[..k + 1] == "{" + body[..k];
      LevelAfterBrace(body[..k]);
    }
    assert body[..|body|] == body;
    assert Level(body, '{', '}') == 0 ==> Level(body[..|body|], '{', '}') == 0;
    if IsGroup(g, '{', '}') {
      forall k | 0 <= k < |body| ensures Level(body[..k], '{', '}') >= 0 {
        assert Level(g[..k + 1], '{', '}') > 0;
      }
      assert Level(g[..|body| + 1], '{', '}') > 0;
    }
    if IsBlockBody(source, open, body) {
      forall k | 0 < k < |g| ensures Level(g[..k], '{', '}') > 0 {
        var m := k - 1;
        assert Level(g[..m + 1], '{', '}') == 1 + Level(body[..m], '{', '}');
      }
    }
  }

  lemma BlockBodyIsUnique(source: string, open: nat, a: string, b: string)
    requires IsBlockBody(source, open, a) && IsBlockBody(source, open, b)
    ensures a == b
  {
    BlockBodyIsGroup(source, open, a);
    BlockBodyIsGroup(source, open, b);
    var s := source[open..];
    assert s[..|a| + 2] == source[open..open + |a| + 2] && s[..|b| + 2] == source[open..open + |b| + 2];
    GroupIsUnique(s, |a| + 2, |b| + 2, '{', '}');
  }

  /** The body of the first balanced block after `from`; empty when there is none. */
  method BlockAfter(source: string, from: nat) returns (body: string)
    requires from <= |source|
    ensures var open := IndexOf(source, '{', from);
            && (open != -1 && (exists b :: IsBlockBody(source, open, b)) ==> IsBlockBody(source, open, body))
            && (open == -1 || (forall b :: !IsBlockBody(source, open, b)) ==> body == "")
  {
    var open := IndexOf(source, '{', from);
    if open == -1 { return ""; }
    ghost var s := source[open..];
    ghost var n := GroupAtStart(s, '{', '}');
    GroupAtStartIsRight(s, '{', '}');
    var depth := 0;
    for i := open to |source|
      invariant if i == open then depth == 0 else depth > 0 && n == GroupLength(s, i - open, depth, '{', '}')
    {
      assert s[i - open] == source[i];
      if source[i] == '{' {
        depth := depth + 1;
      } else if source[i] == '}' {
        depth := depth - 1;
        if depth == 0 {
          body := source[open + 1..i];
          assert s[..n] == source[open..open + |body| + 2];
          BlockBodyIsGroup(source, open, body);
          return;
        }
      }
    }
    UnclosedHasNoBody(source, open);
    return "";
  }

  lemma UnclosedHasNoBody(source: string, open: nat)
    requires open < |source| && source[open] == '{' && IsTail(source[open..], '{', '}')
    ensures forall b :: !IsBlockBody(source, open, b)
  {
    forall b | IsBlockBody(source, open, b) ensures false {
      BlockBodyIsGroup(source, open, b);
      var s := source[open..];
      assert s[..|b| + 2] == source[open..open + |b| + 2] && s[..|s|] == s;
      GroupIsUnique(s, |b| + 2, |s|, '{', '}');
    }
  }
}
