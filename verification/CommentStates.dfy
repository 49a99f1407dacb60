/** The comment blanker read character by character, as a machine with a state and one character of lookahead. */
module CommentStates {
  import opened SqlText
  import opened CommentBlanker

  /** Where a character stands; `Open` is the star that opens a block comment and `Close` the slash that closes it. */
  datatype State = Code | Line | Open | Block | Close | Str(quote: char) | Escaped(quote: char)

  predicate Follows(following: string, c: char) {
    following != [] && following[0] == c
  }

  function Go(st: State, c: char, following: string): State {
    match st
    case Code =>
      if c == '/' && Follows(following, '/') then Line
      else if c == '/' && Follows(following, '*') then Open
      else if c == '\'' || c == '"' || c == '`' then Str(c)
      else Code
    case Line => if c == '\n' then Code else Line
    case Open => Block
    case Block => if c == '*' && Follows(following, '/') then Close else Block
    case Close => Code
    case Str(quote) => if c == '\\' then Escaped(quote) else if c == quote then Code else Str(quote)
    case Escaped(quote) => Str(quote)
  }

  /** The character is part of a comment. */
  predicate InComment(st: State, c: char, following: string) {
    match st
    case Code => c == '/' && (Follows(following, '/') || Follows(following, '*'))
    case Line => c != '\n'
    case Open => true
    case Block => true
    case Close => true
    case Str(_) => false
    case Escaped(_) => false
  }

  /** Each character of a comment but the line breaks becomes a space. */
  function Masked(s: string, st: State): (out: string)
    ensures |out| == |s|
  {
    if s == [] then []
    else
      [if InComment(st, s[0], s[1..]) && s[0] != '\n' then ' ' else s[0]] + Masked(s[1..], Go(st, s[0], s[1..]))
  }

  lemma BlankOfMore(c: char, text: string)
    ensures Blank([c] + text) == [if c == '\n' then '\n' else ' '] + Blank(text)
  {
  }

  lemma {:induction false} LineMasked(s: string)
    ensures var n := LineRest(s); Masked(s, Line) == Blank(s[..n]) + Masked(s[n..], Code)
  {
    hide Blank;
    var n := LineRest(s);
    if s == [] || s[0] == '\n' {
      NothingBlanked();
      assert s[..n] == [] && s[n..] == s;
    } else {
      var rest, m := s[1..], n - 1;
      assert s == [s[0]] + rest && m == LineRest(rest);
      LineMasked(rest);
      OneMasked(s[0], rest, Line);
      BlankOfMore(s[0], rest[..m]);
      hide Masked, LineRest;
      assert s[..n] == [s[0]] + rest[..m] && s[n..] == rest[m..];
    }
  }

  lemma NothingBlanked()
    ensures Blank([]) == []
  {
  }

  lemma {:induction false} BlockMasked(s: string)
    ensures var n := BlockRest(s); Masked(s, Block) == Blank(s[..n]) + Masked(s[n..], Code)
  {
    hide Blank;
    var n := BlockRest(s);
    NothingBlanked();
    if s == [] {
      assert s[..n] == [] && s[n..] == s;
    } else if StartsWith(s, '*', '/') {
      BlankOfMore(s[0], [s[1]]);
      BlankOfMore(s[1], []);
      assert s[..2] == [s[0]] + [s[1]] && [s[1]] == [s[1]] + [] && s[1..][1..] == s[2..];
      assert Masked(s[1..], Close) == [' '] + Masked(s[2..], Code);
    } else {
      var rest, m := s[1..], n - 1;
      assert Go(Block, s[0], rest) == Block;
      BlockMasked(rest);
      assert m == BlockRest(rest);
      BlankOfMore(s[0], rest[..m]);
      assert s[..n] == [s[0]] + rest[..m] && s[n..] == rest[m..];
    }
  }

  lemma OneMasked(c: char, more: string, st: State)
    ensures Masked([c] + more, st) ==
            [if InComment(st, c, more) && c != '\n' then ' ' else c] + Masked(more, Go(st, c, more))
  {
    assert ([c] + more)[1..] == more;
  }

  lemma StringRestStep(s: string, quote: char)
    ensures s == [] ==> StringRest(s, quote) == 0
    ensures s != [] && s[0] != '\\' ==>
              StringRest(s, quote) == if s[0] == quote then 1 else 1 + StringRest(s[1..], quote)
    ensures s != [] && s[0] == '\\' ==>
              StringRest(s, quote) == if |s| == 1 then 1 else 2 + StringRest(s[2..], quote)
  {
  }

  lemma {:induction false} StringMasked(s: string, quote: char)
    requires quote != '\\'
    ensures var n := StringRest(s, quote); Masked(s, Str(quote)) == s[..n] + Masked(s[n..], Code)
    decreases |s|
  {
    hide Masked, StringRest;
    StringRestStep(s, quote);
    var n := StringRest(s, quote);
    if s == [] {
      NothingMasked();
      assert s[..n] == [] && s[n..] == [];
    } else {
      var c, rest := s[0], s[1..];
      assert s == [c] + rest;
      OneMasked(c, rest, Str(quote));
      if c == '\\' {
        NothingMasked();
        if |s| > 1 { EscapedMasked(s, quote); }
        assert |s| == 1 ==> rest == [] && s[..n] == [c] && s[n..] == [];
      } else if c == quote {
        assert s[..n] == [c] && s[n..] == rest;
      } else {
        StringMasked(rest, quote);
        assert s[..n] == [c] + rest[..n - 1] && s[n..] == rest[n - 1..];
      }
    }
  }

  lemma {:induction false} EscapedMasked(s: string, quote: char)
    requires |s| > 1 && s[0] == '\\' && quote != '\\'
    ensures var n := StringRest(s, quote); Masked(s, Str(quote)) == s[..n] + Masked(s[n..], Code)
    decreases |s|, 0
  {
    hide Masked, StringRest;
    StringRestStep(s, quote);
    var n, rest, more := StringRest(s, quote), s[1..], s[2..];
    assert s == [s[0]] + rest && rest == [s[1]] + more;
    OneMasked(s[0], rest, Str(quote));
    OneMasked(s[1], more, Escaped(quote));
    StringMasked(more, quote);
    assert s[..n] == [s[0]] + ([s[1]] + more[..n - 2]) && s[n..] == more[n - 2..];
  }

  lemma LineTokenMasked(s: string)
    requires StartsWith(s, '/', '/')
    ensures var n := LineRest(s); Masked(s, Code) == Blank(s[..n]) + Masked(s[n..], Code)
  {
    hide Masked, Blank, LineRest;
    var rest := s[1..];
    var n := LineRest(rest);
    LineMasked(rest);
    LineOfMore(s);
    assert s == [s[0]] + rest;
    OneMasked(s[0], rest, Code);
    BlankOfMore(s[0], rest[..n]);
    assert s[..1 + n] == [s[0]] + rest[..n] && s[1 + n..] == rest[n..];
  }

  lemma BlockTokenMasked(s: string)
    requires StartsWith(s, '/', '*')
    ensures var n := 2 + BlockRest(s[2..]); Masked(s, Code) == Blank(s[..n]) + Masked(s[n..], Code)
  {
    hide Masked, Blank, BlockRest;
    var rest, more := s[1..], s[2..];
    var n := BlockRest(more);
    BlockMasked(more);
    assert s == [s[0]] + rest && rest == [s[1]] + more;
    OneMasked(s[0], rest, Code);
    OneMasked(s[1], more, Open);
    BlankOfMore(s[1], more[..n]);
    BlankOfMore(s[0], [s[1]] + more[..n]);
    assert s[..2 + n] == [s[0]] + ([s[1]] + more[..n]) && s[2 + n..] == more[n..];
  }

  lemma TokenMasked(s: string)
    requires s != []
    ensures var t := First(s); Masked(s, Code) == Blanked(t) + Masked(s[|TextOf(t)|..], Code)
  {
    hide LineRest, BlockRest, StringRest, Blank, Masked;
    var rest := s[1..];
    assert s == [s[0]] + rest;
    if StartsWith(s, '/', '/') {
      LineTokenMasked(s);
    } else if StartsWith(s, '/', '*') {
      BlockTokenMasked(s);
    } else {
      OneMasked(s[0], rest, Code);
      if IsQuote(s[0]) {
        var n := StringRest(rest, s[0]);
        StringMasked(rest, s[0]);
        assert s[..1 + n] == [s[0]] + rest[..n] && s[1 + n..] == rest[n..];
      }
    }
  }

  lemma LineOfMore(s: string)
    requires StartsWith(s, '/', '/')
    ensures LineRest(s) == 1 + LineRest(s[1..])
  {
  }

  /** Stripping a text, token by token, is running the machine over it. */
  lemma {:induction false} StripIsMasking(s: string)
    ensures ShowBlanked(Lex(s)) == Masked(s, Code)
    decreases |s|
  {
    hide First, Masked, Blanked;
    if s == [] {
      NothingMasked();
    } else {
      var t := First(s);
      TokenMasked(s);
      StripIsMasking(s[|TextOf(t)|..]);
      ShowBlankedOfMore(t, Lex(s[|TextOf(t)|..]));
    }
  }

  lemma NothingMasked()
    ensures Masked([], Code) == []
  {
  }

  lemma ShowBlankedOfMore(t: Token, ts: seq<Token>)
    ensures ShowBlanked([t] + ts) == Blanked(t) + ShowBlanked(ts)
  {
    assert ([t] + ts)[1..] == ts;
  }

  /** The line of a position is one more than the line breaks before it. */
  lemma LineIsCounting(s: string, k: nat)
    requires k <= |s|
    ensures LineOf(s, k) == 1 + multiset(s[..k])['\n']
  {
    BreaksAreCounted(s[..k]);
  }

  lemma {:induction false} BreaksAreCounted(s: string)
    ensures Breaks(s) == multiset(s)['\n']
  {
    if s != [] {
      var n := |s| - 1;
      BreaksAreCounted(s[..n]);
      assert s == s[..n] + [s[n]];
    }
  }
}
