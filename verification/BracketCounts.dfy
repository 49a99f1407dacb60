/** Groups, subqueries and blocks told by counting the brackets. */
module BracketCounts {
  import opened SqlText
  import opened Brackets
  import opened UpdateSpelled

  predicate IsLevel(s: string, open: char, close: char) {
    multiset(s)[open] == multiset(s)[close]
  }

  predicate IsAbove(s: string, open: char, close: char) {
    multiset(s)[open] > multiset(s)[close]
  }

  lemma {:induction false} LevelIsCounting(s: string, open: char, close: char)
    requires open != close
    ensures Level(s, open, close) == multiset(s)[open] as int - multiset(s)[close] as int
  {
    if s != [] {
      var n := |s| - 1;
      LevelIsCounting(s[..n], open, close);
      assert s == s[..n] + [s[n]];
    }
  }

  /** From an opening bracket up to the one that closes it: nowhere before are as many closed as opened. */
  predicate IsWhole(g: string, open: char, close: char) {
    g != [] && g[0] == open && IsLevel(g, open, close) && forall k :: 0 < k < |g| ==> IsAbove(g[..k], open, close)
  }

  /** From an opening bracket on that nothing closes. */
  predicate IsUnclosed(t: string, open: char, close: char) {
    t != [] && t[0] == open && forall k :: 0 < k <= |t| ==> IsAbove(t[..k], open, close)
  }

  lemma GroupIsWhole(g: string, open: char, close: char)
    requires open != close
    ensures IsGroup(g, open, close) <==> IsWhole(g, open, close)
    ensures IsTail(g, open, close) <==> IsUnclosed(g, open, close)
  {
    hide Level;
    forall k | 0 <= k <= |g|
      ensures Level(g[..k], open, close) > 0 <==> IsAbove(g[..k], open, close)
      ensures Level(g[..k], open, close) == 0 <==> IsLevel(g[..k], open, close)
    {
      LevelIsCounting(g[..k], open, close);
    }
    assert g[..|g|] == g;
  }

  // ---------- subqueries ----------

  function Concat(texts: seq<string>): string {
    if texts == [] then [] else texts[0] + Concat(texts[1..])
  }

  /** A character outside all parentheses, a group of them or, at the very end, an unclosed rest. */
  predicate IsPart(texts: seq<string>, k: nat)
    requires k < |texts|
  {
    || (|texts[k]| == 1 && texts[k][0] != '(')
    || IsWhole(texts[k], '(', ')')
    || (k == |texts| - 1 && IsUnclosed(texts[k], '(', ')'))
  }

  /** The same parts, with a space for each group that has the word SELECT in it, in whatever case. */
  ghost predicate IsReduced(texts: seq<string>, outs: seq<string>) {
    && |outs| == |texts|
    && forall k :: 0 <= k < |texts| ==>
         outs[k] == if IsWhole(texts[k], '(', ')') && Mentions(texts[k], "select") then " " else texts[k]
  }

  lemma {:induction false} PartsOfPieces(ps: seq<Piece>) returns (texts: seq<string>, outs: seq<string>)
    requires IsReading(ps)
    ensures |texts| == |ps| && (forall k :: 0 <= k < |ps| ==> IsPart(texts, k))
    ensures IsReduced(texts, outs) && Concat(texts) == Show(ps) && Concat(outs) == Show(ReducedAll(ps))
  {
    texts, outs := [], [];
    hide IsReading, IsGroup, IsTail, IsWhole, IsUnclosed, Mentions, ContainsWord;
    if ps != [] {
      var p := ps[0];
      ReadingStep(ps);
      var ts, os := PartsOfPieces(ps[1..]);
      texts, outs := [TextOf(p)] + ts, [TextOf(Reduced(p))] + os;
      GroupIsWhole(TextOf(p), '(', ')');
      WordsAreMentioned(TextOf(p), "select");
      OneMorePiece(p, ps[1..]);
      assert [p] + ps[1..] == ps && texts[1..] == ts && outs[1..] == os;
      NotBoth(TextOf(p));
      forall k | 0 <= k < |ps| ensures IsPart(texts, k) {
        assert k > 0 ==> IsPart(ts, k - 1);
      }
    }
  }

  lemma ReadingStep(ps: seq<Piece>)
    requires ps != [] && IsReading(ps)
    ensures IsReading(ps[1..])
    ensures match ps[0]
            case Outside(c) => c != '('
            case Group(text) => IsGroup(text, '(', ')')
            case Tail(text) => IsTail(text, '(', ')') && |ps| == 1
  {
  }

  /** A group is not unclosed, and is longer than a character. */
  lemma NotBoth(t: string)
    ensures !(IsWhole(t, '(', ')') && IsUnclosed(t, '(', ')'))
    ensures |t| == 1 ==> !IsWhole(t, '(', ')')
  {
    assert t[..|t|] == t;
  }

  /** The text falls into such parts, and the stripped text is the reduced ones. */
  lemma StripInParts(s: string) returns (texts: seq<string>, outs: seq<string>)
    ensures forall k :: 0 <= k < |texts| ==> IsPart(texts, k)
    ensures IsReduced(texts, outs) && Concat(texts) == s && Concat(outs) == Strip(s)
  {
    hide IsReading, Read, Show, IsPart, IsReduced;
    ReadIsReading(s);
    texts, outs := PartsOfPieces(Read(s));
  }

  // ---------- blocks ----------

  /** A body: as many opened as closed, never more closed than opened, with its own braces around it. */
  lemma BodyIsCounting(source: string, open: nat, body: string)
    ensures IsBlockBody(source, open, body) <==>
            && open + 1 + |body| < |source| && source[open] == '{' && source[open + 1 + |body|] == '}'
            && source[open + 1..open + 1 + |body|] == body && multiset(body)['{'] == multiset(body)['}']
            && forall k :: 0 <= k < |body| ==> multiset(body[..k])['{'] >= multiset(body[..k])['}']
  {
    hide Level;
    LevelIsCounting(body, '{', '}');
    forall k | 0 <= k < |body|
      ensures Level(body[..k], '{', '}') == multiset(body[..k])['{'] as int - multiset(body[..k])['}'] as int
    {
      LevelIsCounting(body[..k], '{', '}');
    }
  }
}
