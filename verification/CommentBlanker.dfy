/** Blanking out the comments of a source text, strings and line numbers left as they are. */
module CommentBlanker {
  import opened SqlText

  datatype Token =
    | Comment(text: string)
    | Quoted(text: string)
    | Plain(c: char)

  function TextOf(t: Token): string {
    match t
    case Comment(text) => text
    case Quoted(text) => text
    case Plain(c) => [c]
  }

  /** The tokens written out again. */
  function Show(ts: seq<Token>): string {
    if ts == [] then [] else TextOf(ts[0]) + Show(ts[1..])
  }

  /** Everything but line breaks becomes a space. */
  function Blank(text: string): string {
    seq(|text|, k requires 0 <= k < |text| => if text[k] == '\n' then '\n' else ' ')
  }

  /** The tokens written out with their comments blanked. */
  function ShowBlanked(ts: seq<Token>): string {
    if ts == [] then [] else
      (if ts[0].Comment? then Blank(ts[0].text) else TextOf(ts[0])) + ShowBlanked(ts[1..])
  }

  // ---------- what the tokens of a text are ----------

  predicate IsQuote(c: char) {
    c == '\'' || c == '"' || c == '`'
  }

  predicate StartsWith(s: string, a: char, b: char) {
    |s| >= 2 && s[0] == a && s[1] == b
  }

  /** Inside a string: escaped pairs, and characters that are neither a backslash nor the closing quote. */
  predicate IsBody(s: string, quote: char) {
    s == []
    || (s[0] == '\\' && |s| >= 2 && IsBody(s[2..], quote))
    || (s[0] != '\\' && s[0] != quote && IsBody(s[1..], quote))
  }

  /** A whole string after its opening quote; only the end of the text may leave it open. */
  predicate IsStringRest(s: string, quote: char, following: string) {
    || (s != [] && s[|s| - 1] == quote && IsBody(s[..|s| - 1], quote))
    || (following == [] && IsBody(s, quote))
    || (following == [] && s != [] && s[|s| - 1] == '\\' && IsBody(s[..|s| - 1], quote))
  }

  predicate ClosesAt(s: string, k: int) {
    0 <= k && k + 2 <= |s| && s[k] == '*' && s[k + 1] == '/'
  }

  /** A block comment after its opening; only the end of the text may leave it open. */
  predicate IsBlockRest(s: string, following: string) {
    || (ClosesAt(s, |s| - 2) && forall k :: 0 <= k < |s| - 2 ==> !ClosesAt(s, k))
    || (following == [] && forall k :: 0 <= k <= |s| - 2 ==> !ClosesAt(s, k))
  }

  /** `t` is the token that a text beginning with it, `following` after it, starts with. */
  predicate Fits(t: Token, following: string) {
    match t
    case Comment(text) =>
      || (StartsWith(text, '/', '/') && '\n' !in text && (following == [] || following[0] == '\n'))
      || (StartsWith(text, '/', '*') && IsBlockRest(text[2..], following))
    case Quoted(text) => text != [] && IsQuote(text[0]) && IsStringRest(text[1..], text[0], following)
    case Plain(c) => !IsQuote(c) && !(c == '/' && following != [] && (following[0] == '/' || following[0] == '*'))
  }

  predicate IsLexing(ts: seq<Token>) {
    ts == [] || (Fits(ts[0], Show(ts[1..])) && IsLexing(ts[1..]))
  }

  // ---------- finding them ----------

  /** How far the line goes on. */
  function LineRest(s: string): (n: nat)
    ensures n <= |s|
  {
    if s == [] || s[0] == '\n' then 0 else 1 + LineRest(s[1..])
  }

  /** How far a block comment goes on, its closing included. */
  function BlockRest(s: string): (n: nat)
    ensures n <= |s|
  {
    if |s| < 2 then |s| else if StartsWith(s, '*', '/') then 2 else 1 + BlockRest(s[1..])
  }

  /** How far a string goes on, its closing quote included. */
  function StringRest(s: string, quote: char): (n: nat)
    ensures n <= |s|
  {
    if s == [] then 0
    else if s[0] == '\\' then if |s| == 1 then 1 else 2 + StringRest(s[2..], quote)
    else if s[0] == quote then 1
    else 1 + StringRest(s[1..], quote)
  }

  function First(s: string): (t: Token)
    requires s != []
    ensures 0 < |TextOf(t)| <= |s| && TextOf(t) == s[..|TextOf(t)|]
  {
    if StartsWith(s, '/', '/') then Comment(s[..LineRest(s)])
    else if StartsWith(s, '/', '*') then Comment(s[..2 + BlockRest(s[2..])])
    else if IsQuote(s[0]) then Quoted(s[..1 + StringRest(s[1..], s[0])])
    else Plain(s[0])
  }

  function Lex(s: string): seq<Token>
    decreases |s|
  {
    if s == [] then [] else [First(s)] + Lex(s[|TextOf(First(s))|..])
  }

  lemma LineRestOf(s: string, following: string)
    requires '\n' !in s && (following == [] || following[0] == '\n')
    ensures LineRest(s + following) == |s|
  {
    if s == [] {
      assert s + following == following;
    } else {
      assert (s + following)[1..] == s[1..] + following;
      LineRestOf(s[1..], following);
    }
  }

  lemma {:induction false} LineRestStops(s: string)
    ensures '\n' !in s[..LineRest(s)] && (LineRest(s) == |s| || s[LineRest(s)] == '\n')
  {
    if s != [] && s[0] != '\n' {
      var rest, n := s[1..], LineRest(s);
      LineRestStops(rest);
      assert n == 1 + LineRest(rest);
      hide LineRest;
      assert s[..n] == [s[0]] + rest[..n - 1];
    }
  }

  lemma {:induction false} BlockRestOf(s: string, following: string)
    requires IsBlockRest(s, following)
    ensures BlockRest(s + following) == |s|
  {
    var t := s + following;
    if |t| < 2 {
    } else if StartsWith(t, '*', '/') {
      if |s| >= 2 { assert ClosesAt(s, 0); }
    } else {
      assert t[1..] == s[1..] + following;
      forall k | 0 <= k <= |s[1..]| - 2 && ClosesAt(s[1..], k) ensures ClosesAt(s, k + 1) { }
      BlockRestOf(s[1..], following);
    }
  }

  lemma {:induction false} BlockRestStops(s: string)
    ensures IsBlockRest(s[..BlockRest(s)], s[BlockRest(s)..])
  {
    var n := BlockRest(s);
    if |s| >= 2 && !StartsWith(s, '*', '/') {
      BlockRestStops(s[1..]);
      var r, tail := s[..n], s[1..][..n - 1];
      assert r == [s[0]] + tail;
      assert s[n..] == s[1..][n - 1..];
      forall k | 0 <= k && ClosesAt(r, k) ensures k > 0 && ClosesAt(tail, k - 1) { }
      if ClosesAt(tail, |tail| - 2) { assert ClosesAt(r, |r| - 2); }
    }
  }

  lemma {:induction false} StringRestOf(s: string, quote: char, following: string)
    requires IsStringRest(s, quote, following)
    requires quote != '\\'
    ensures StringRest(s + following, quote) == |s|
    decreases |s|
  {
    var t := s + following;
    assert |s| > 1 ==> s[..|s| - 1][0] == s[0];
    if s == [] {
      assert t == [];
    } else if s[0] == '\\' {
      if |s| == 1 {
        assert following == [];
      } else {
        assert t[2..] == s[2..] + following;
        if |s| > 2 || s[|s| - 1] != quote { StringRestTail(s, quote, following, 2); }
        StringRestOf(s[2..], quote, following);
      }
    } else if s[0] != quote {
      assert t[1..] == s[1..] + following;
      StringRestTail(s, quote, following, 1);
      StringRestOf(s[1..], quote, following);
    }
  }

  /** Past its first item a string is a string still. */
  lemma StringRestTail(s: string, quote: char, following: string, n: nat)
    requires IsStringRest(s, quote, following) && quote != '\\' && s != []
    requires (n == 1 && s[0] != '\\' && s[0] != quote) || (n == 2 && |s| >= 2 && s[0] == '\\')
    ensures IsStringRest(s[n..], quote, following)
  {
    var b, t := s[..|s| - 1], s[n..];
    if |s| > n {
      assert b[n..] == t[..|t| - 1];
      assert b[0] == s[0];
    }
  }

  lemma EmptyBody(quote: char)
    ensures IsBody([], quote)
  {
  }

  lemma {:induction false} StringRestStops(s: string, quote: char)
    requires quote != '\\'
    ensures IsStringRest(s[..StringRest(s, quote)], quote, s[StringRest(s, quote)..])
    decreases |s|
  {
    hide IsBody;
    EmptyBody(quote);
    var n := StringRest(s, quote);
    if s == [] {
    } else if s[0] == '\\' && |s| > 1 {
      hide IsStringRest;
      StringRestStops(s[2..], quote);
      assert s[..n][2..] == s[2..][..n - 2] && s[n..] == s[2..][n - 2..];
      StringRestHead(s[..n], quote, s[n..], 2);
    } else if s[0] != '\\' && s[0] != quote {
      hide IsStringRest;
      StringRestStops(s[1..], quote);
      assert s[..n][1..] == s[1..][..n - 1] && s[n..] == s[1..][n - 1..];
      StringRestHead(s[..n], quote, s[n..], 1);
    }
  }

  /** A string with one more item in front is a string still. */
  lemma StringRestHead(s: string, quote: char, following: string, n: nat)
    requires quote != '\\' && s != []
    requires (n == 1 && s[0] != '\\' && s[0] != quote) || (n == 2 && |s| >= 2 && s[0] == '\\')
    requires IsStringRest(s[n..], quote, following)
    ensures IsStringRest(s, quote, following)
  {
    var b, t := s[..|s| - 1], s[n..];
    if |s| > n {
      assert b[n..] == t[..|t| - 1];
      assert b[0] == s[0];
    }
  }

  // ---------- one way to read a text ----------

  lemma FirstOf(t: Token, following: string)
    requires Fits(t, following)
    ensures TextOf(t) != [] && First(TextOf(t) + following) == t
  {
    var s := TextOf(t) + following;
    match t
    case Comment(text) =>
      if StartsWith(text, '/', '/') {
        LineRestOf(text, following);
      } else {
        BlockRestOf(text[2..], following);
        assert s[2..] == text[2..] + following;
      }
      assert s[..|text|] == text;
    case Quoted(text) =>
      StringRestOf(text[1..], text[0], following);
      assert s[1..] == text[1..] + following;
      assert s[..|text|] == text;
    case Plain(c) =>
      assert following != [] ==> s[1] == following[0];
  }

  lemma FirstFits(s: string)
    requires s != []
    ensures Fits(First(s), s[|TextOf(First(s))|..])
  {
    if StartsWith(s, '/', '/') {
      LineRestStops(s);
    } else if StartsWith(s, '/', '*') {
      var n := BlockRest(s[2..]);
      BlockRestStops(s[2..]);
      assert s[..2 + n][2..] == s[2..][..n] && s[2 + n..] == s[2..][n..];
    } else if IsQuote(s[0]) {
      var n := StringRest(s[1..], s[0]);
      StringRestStops(s[1..], s[0]);
      assert s[..1 + n][1..] == s[1..][..n] && s[1 + n..] == s[1..][n..];
    }
  }

  lemma OneMoreToken(t: Token, ts: seq<Token>)
    requires Fits(t, Show(ts)) && IsLexing(ts)
    ensures IsLexing([t] + ts) && Show([t] + ts) == TextOf(t) + Show(ts)
    ensures ShowBlanked([t] + ts) == Blanked(t) + ShowBlanked(ts)
  {
    hide Fits, First, Blank, TextOf;
    assert ([t] + ts)[1..] == ts;
  }

  /** Every text has a lexing. */
  lemma {:induction false} LexIsLexing(s: string)
    ensures IsLexing(Lex(s)) && Show(Lex(s)) == s
    decreases |s|
  {
    hide First, Fits, IsLexing, Show;
    NoTokens();
    if s != [] {
      var n := |TextOf(First(s))|;
      FirstFits(s);
      LexIsLexing(s[n..]);
      OneMoreToken(First(s), Lex(s[n..]));
      assert s == s[..n] + s[n..];
    }
  }

  lemma NoTokens()
    ensures IsLexing([]) && Show([]) == []
  {
  }

  /** And no other. */
  lemma {:induction false} LexingIsUnique(ts: seq<Token>)
    requires IsLexing(ts)
    ensures ts == Lex(Show(ts))
  {
    hide First, Fits, TextOf;
    if ts != [] {
      var following := Show(ts[1..]);
      FirstOf(ts[0], following);
      assert Show(ts)[|TextOf(ts[0])|..] == following;
      LexingIsUnique(ts[1..]);
    }
  }

  // ---------- the loop ----------

  function IndexOfClose(s: string, from: nat): (r: int)
    ensures r == -1 || from <= r <= |s| - 2
    decreases |s| - from
  {
    if from + 2 > |s| then -1 else if StartsWith(s[from..], '*', '/') then from else IndexOfClose(s, from + 1)
  }

  lemma LineRestByIndex(s: string, from: nat)
    requires from <= |s|
    ensures from + LineRest(s[from..]) == if IndexOf(s, '\n', from) == -1 then |s| else IndexOf(s, '\n', from)
    decreases |s| - from
  {
    if from < |s| {
      assert s[from..][1..] == s[from + 1..];
      LineRestByIndex(s, from + 1);
    }
  }

  lemma BlockRestByIndex(s: string, from: nat)
    requires from <= |s|
    ensures from + BlockRest(s[from..]) == if IndexOfClose(s, from) == -1 then |s| else IndexOfClose(s, from) + 2
    decreases |s| - from
  {
    if from + 2 <= |s| {
      assert s[from..][1..] == s[from + 1..];
      BlockRestByIndex(s, from + 1);
    }
  }

  function Blanked(t: Token): string {
    if t.Comment? then Blank(t.text) else TextOf(t)
  }

  /** What is left to write from position `i` on. */
  function Remaining(source: string, i: nat): string {
    if i <= |source| then ShowBlanked(Lex(source[i..])) else []
  }

  lemma RemainingStep(source: string, i: nat, t: Token)
    requires i < |source| && First(source[i..]) == t
    ensures Remaining(source, i) == Blanked(t) + Remaining(source, i + |TextOf(t)|)
  {
    var s := source[i..];
    assert Lex(s)[1..] == Lex(s[|TextOf(t)|..]);
    assert s[|TextOf(t)|..] == source[i + |TextOf(t)|..];
  }

  /** Where the line or block comment at `i` ends. */
  function LineEnd(source: string, i: nat): (stop: nat)
    requires i <= |source|
    ensures i <= stop <= |source|
  {
    var end := IndexOf(source, '\n', i);
    if end == -1 then |source| else end
  }

  function BlockEnd(source: string, i: nat): (stop: nat)
    requires i + 2 <= |source|
    ensures i + 2 <= stop <= |source|
  {
    var end := IndexOfClose(source, i + 2);
    if end == -1 then |source| else end + 2
  }

  lemma TwoAt(source: string, i: nat)
    requires i < |source|
    ensures var s := source[i..];
            && (i + 2 <= |source| ==> source[i..i + 2] == [s[0], s[1]])
            && (i + 2 > |source| ==> |s| == 1)
  {
  }

  lemma LineCommentAt(source: string, i: nat)
    requires i + 2 <= |source| && source[i..i + 2] == "//"
    ensures i < LineEnd(source, i)
    ensures Remaining(source, i) == Blank(source[i..LineEnd(source, i)]) + Remaining(source, LineEnd(source, i))
  {
    hide LineRest, BlockRest, StringRest, Remaining, IndexOf;
    TwoAt(source, i);
    var s := source[i..];
    assert StartsWith(s, '/', '/');
    LineRestByIndex(source, i);
    assert s[..LineRest(s)] == source[i..LineEnd(source, i)];
    RemainingStep(source, i, First(s));
  }

  lemma BlockCommentAt(source: string, i: nat)
    requires i + 2 <= |source| && source[i..i + 2] == "/*"
    ensures Remaining(source, i) == Blank(source[i..BlockEnd(source, i)]) + Remaining(source, BlockEnd(source, i))
  {
    hide LineRest, BlockRest, StringRest, Remaining, IndexOfClose;
    TwoAt(source, i);
    var s := source[i..];
    assert StartsWith(s, '/', '*') && !StartsWith(s, '/', '/');
    assert s[2..] == source[i + 2..];
    BlockRestByIndex(source, i + 2);
    assert s[..2 + BlockRest(s[2..])] == source[i..BlockEnd(source, i)];
    RemainingStep(source, i, First(s));
  }

  lemma StringAt(source: string, i: nat, j: nat)
    requires i < |source| && IsQuote(source[i])
    requires (if j > |source| then |source| else j) == i + 1 + StringRest(source[i + 1..], source[i])
    ensures Remaining(source, i) == source[i..if j > |source| then |source| else j] + Remaining(source, j)
  {
    hide LineRest, BlockRest, StringRest, Remaining;
    var s, stop := source[i..], if j > |source| then |source| else j;
    assert s[1..] == source[i + 1..];
    assert First(s) == Quoted(s[..1 + StringRest(s[1..], s[0])]);
    assert s[..1 + StringRest(s[1..], s[0])] == source[i..stop];
    RemainingStep(source, i, First(s));
    if j >= |source| {
      PastTheEnd(source, |source|);
      PastTheEnd(source, j);
    }
  }

  lemma PlainAt(source: string, i: nat)
    requires i < |source| && !IsQuote(source[i])
    requires i + 2 <= |source| ==> source[i..i + 2] != "//" && source[i..i + 2] != "/*"
    ensures Remaining(source, i) == [source[i]] + Remaining(source, i + 1)
  {
    hide LineRest, BlockRest, StringRest, Remaining;
    TwoAt(source, i);
    RemainingStep(source, i, First(source[i..]));
  }

  /** The end of the string that opens at `i`; a trailing backslash takes the index past the end of the text. */
  method SkipString(source: string, i: nat) returns (j: nat)
    requires i < |source| && IsQuote(source[i])
    ensures i < j <= |source| + 1
    ensures (if j > |source| then |source| else j) == i + 1 + StringRest(source[i + 1..], source[i])
  {
    var quote := source[i];
    ghost var end := i + 1 + StringRest(source[i + 1..], quote);
    j := i + 1;
    while j < |source|
      invariant i < j <= |source| + 1
      invariant j <= |source| ==> j + StringRest(source[j..], quote) == end
      invariant j > |source| ==> end == |source|
      decreases |source| - j
    {
      assert source[j..][1..] == source[j + 1..];
      if source[j] == '\\' {
        if j + 1 < |source| { assert source[j..][2..] == source[j + 2..]; }
        j := j + 2;
        continue;
      }
      if source[j] == quote {
        j := j + 1;
        break;
      }
      j := j + 1;
    }
  }

  lemma Written(out: string, more: string, rest: string)
    ensures (out + more) + rest == out + (more + rest)
  {
  }

  method StripComments(source: string) returns (out: string)
    ensures out == ShowBlanked(Lex(source))
  {
    hide Remaining, ShowBlanked, Lex, StringRest, Blank, IndexOf, IndexOfClose;
    out := "";
    var i := 0;
    FromTheStart(source);
    while i < |source|
      invariant 0 <= i
      invariant out + Remaining(source, i) == ShowBlanked(Lex(source))
      decreases |source| - i
    {
      var two := source[i..if i + 2 > |source| then |source| else i + 2];
      if two == "//" {
        LineCommentAt(source, i);
        var end := IndexOf(source, '\n', i);
        var stop := if end == -1 then |source| else end;
        Written(out, Blank(source[i..stop]), Remaining(source, stop));
        out := out + Blank(source[i..stop]);
        i := stop;
        continue;
      }
      if two == "/*" {
        BlockCommentAt(source, i);
        var end := IndexOfClose(source, i + 2);
        var stop := if end == -1 then |source| else end + 2;
        Written(out, Blank(source[i..stop]), Remaining(source, stop));
        out := out + Blank(source[i..stop]);
        i := stop;
        continue;
      }
      if IsQuote(source[i]) {
        var j := SkipString(source, i);
        StringAt(source, i, j);
        Written(out, source[i..if j > |source| then |source| else j], Remaining(source, j));
        out := out + source[i..if j > |source| then |source| else j];
        i := j;
        continue;
      }
      PlainAt(source, i);
      Written(out, [source[i]], Remaining(source, i + 1));
      out := out + [source[i]];
      i := i + 1;
    }
    PastTheEnd(source, i);
  }

  lemma FromTheStart(source: string)
    ensures Remaining(source, 0) == ShowBlanked(Lex(source))
  {
    assert source[0..] == source;
  }

  lemma PastTheEnd(source: string, i: nat)
    requires i >= |source|
    ensures Remaining(source, i) == []
  {
    if i == |source| { assert source[i..] == []; }
  }

  // ---------- what blanking keeps ----------

  lemma BlankedFacts(t: Token)
    ensures |Blanked(t)| == |TextOf(t)|
    ensures forall k :: 0 <= k < |TextOf(t)| ==>
              (Blanked(t)[k] == '\n' <==> TextOf(t)[k] == '\n')
              && (Blanked(t)[k] == TextOf(t)[k] || (t.Comment? && Blanked(t)[k] == ' '))
  {
  }

  /** The text keeps its length and its line breaks; where it changes at all it becomes a space. */
  lemma {:induction false} BlankingKeepsPositions(ts: seq<Token>)
    ensures var s, out := Show(ts), ShowBlanked(ts);
            && |out| == |s|
            && (forall k :: 0 <= k < |s| ==> (out[k] == '\n' <==> s[k] == '\n') && (out[k] == s[k] || out[k] == ' '))
  {
    hide Blank;
    if ts != [] {
      BlankedFacts(ts[0]);
      BlankingKeepsPositions(ts[1..]);
      var s, out, n := Show(ts), ShowBlanked(ts), |TextOf(ts[0])|;
      assert s == TextOf(ts[0]) + Show(ts[1..]) && out == Blanked(ts[0]) + ShowBlanked(ts[1..]);
    }
  }

  function Breaks(s: string): nat {
    if s == [] then 0 else (if s[|s| - 1] == '\n' then 1 else 0) + Breaks(s[..|s| - 1])
  }

  /** The line on which position `k` stands. */
  function LineOf(s: string, k: nat): nat
    requires k <= |s|
  {
    1 + Breaks(s[..k])
  }

  lemma {:induction false} SameBreaks(a: string, b: string, k: nat)
    requires k <= |a| == |b| && forall m :: 0 <= m < |a| ==> (a[m] == '\n' <==> b[m] == '\n')
    ensures LineOf(a, k) == LineOf(b, k)
  {
    if k > 0 {
      SameBreaks(a, b, k - 1);
      assert a[..k][..k - 1] == a[..k - 1] && b[..k][..k - 1] == b[..k - 1];
    }
  }

  /** A position's line in the stripped text is its line in the original. */
  lemma LinesAreKept(source: string, k: nat)
    requires k <= |source|
    ensures |ShowBlanked(Lex(source))| == |source|
    ensures LineOf(ShowBlanked(Lex(source)), k) == LineOf(source, k)
  {
    hide Lex, ShowBlanked, Show, IsLexing;
    LexIsLexing(source);
    BlankingKeepsPositions(Lex(source));
    SameBreaks(ShowBlanked(Lex(source)), source, k);
  }

  /** The characters of a text, one token each. */
  function Plainly(text: string): seq<Token> {
    seq(|text|, k requires 0 <= k < |text| => Plain(text[k]))
  }

  /** The tokens with every comment replaced by its blanks. */
  function Stripped(ts: seq<Token>): seq<Token> {
    if ts == [] then [] else
      (if ts[0].Comment? then Plainly(Blank(ts[0].text)) else [ts[0]]) + Stripped(ts[1..])
  }

  lemma BlankFits(c: char, following: string)
    requires c == ' ' || c == '\n'
    ensures Fits(Plain(c), following)
  {
  }

  lemma {:induction false} BlanksLexPlainly(text: string, more: seq<Token>)
    requires IsLexing(more) && forall k :: 0 <= k < |text| ==> text[k] == ' ' || text[k] == '\n'
    ensures IsLexing(Plainly(text) + more) && Show(Plainly(text) + more) == text + Show(more)
    ensures ShowBlanked(Plainly(text) + more) == text + ShowBlanked(more)
  {
    hide Fits, IsLexing, Show, ShowBlanked;
    if text == [] {
      assert Plainly(text) + more == more;
    } else {
      var rest := Plainly(text[1..]) + more;
      BlanksLexPlainly(text[1..], more);
      BlankFits(text[0], Show(rest));
      OneMoreToken(Plain(text[0]), rest);
      assert Plainly(text) + more == [Plain(text[0])] + rest;
      assert text == [text[0]] + text[1..];
    }
  }

  /** What follows a token that is not a comment starts the same, or with a blank, once stripped. */
  lemma {:induction false} StrippedIsLexing(ts: seq<Token>)
    requires IsLexing(ts)
    ensures var r := Stripped(ts);
            IsLexing(r) && Show(r) == ShowBlanked(ts) && ShowBlanked(r) == ShowBlanked(ts)
  {
    hide StringRest, IsStringRest, IsBlockRest;
    if ts != [] {
      var t, more := ts[0], Stripped(ts[1..]);
      StrippedIsLexing(ts[1..]);
      if t.Comment? {
        BlanksLexPlainly(Blank(t.text), more);
      } else {
        StrippedFollows(ts[1..]);
        assert ([t] + more)[1..] == more;
        StillFits(t, Show(ts[1..]), ShowBlanked(ts[1..]));
      }
    }
  }

  lemma StrippedFollows(ts: seq<Token>)
    requires IsLexing(ts)
    ensures var s, out := Show(ts), ShowBlanked(ts);
            (s == [] <==> out == []) && (s != [] ==> out[0] == s[0] || out[0] == ' ')
  {
    BlankingKeepsPositions(ts);
  }

  lemma StillFits(t: Token, before: string, after: string)
    requires Fits(t, before) && !t.Comment?
    requires (before == [] <==> after == []) && (before != [] ==> after[0] == before[0] || after[0] == ' ')
    ensures Fits(t, after)
  {
  }

  /** Stripping a stripped text changes nothing. */
  lemma StrippingIsIdempotent(source: string)
    ensures var out := ShowBlanked(Lex(source)); ShowBlanked(Lex(out)) == out
  {
    LexIsLexing(source);
    var r := Stripped(Lex(source));
    StrippedIsLexing(Lex(source));
    LexingIsUnique(r);
  }

  /** `stripComments` blanks the comments of the one way to read the text, and nothing else. */
  lemma StripsTheOneLexing(source: string, ts: seq<Token>)
    requires IsLexing(ts) && Show(ts) == source
    ensures ShowBlanked(Lex(source)) == ShowBlanked(ts)
  {
    LexingIsUnique(ts);
  }
}
