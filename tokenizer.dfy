/**
 * The tokenizer of the cosmetics command language (`CosmeticsTokenizer`):
 * the longest command phrase that starts the input, then every double-quoted
 * segment of the rest, then an end marker.
 */
module Tokenizer {
  import opened Wrappers
  import opened Text

  datatype TokenType = Command | StringLiteral | Eof

  /** A token: its kind and its text (the command phrase, the literal's
      contents, or "" for the end marker). */
  datatype Token = Token(kind: TokenType, value: string)

  const EofToken: Token := Token(Eof, "")

  const Quote: char := '"'

  /** The command vocabulary, in declaration order. */
  const Commands: seq<string> := [
    "apply theme", "add item", "remove item", "clear inventory",
    "add item list", "color palette", "assemble cosmetic",
    "register", "login", "logout", "exit"
  ]

  /** The vocabulary as `sorted(COMMANDS, key=len, reverse=True)` yields it:
      longest first, ties in declaration order (Python's sort is stable). */
  const SearchOrder: seq<string> := [
    "assemble cosmetic", "clear inventory", "add item list", "color palette",
    "apply theme", "remove item", "add item", "register",
    "logout", "login", "exit"
  ]

  predicate LongestFirst(order: seq<string>) {
    forall m, n :: 0 <= m < n < |order| ==> |order[m]| >= |order[n]|
  }

  lemma SearchOrderIsSorted()
    ensures forall c :: c in SearchOrder <==> c in Commands
    ensures LongestFirst(SearchOrder)
  {
  }

  /** The first phrase of `order`, from index `k` on, that is a prefix of
      `text`. */
  function FirstPrefix(order: seq<string>, text: string, k: nat): Option<string>
    requires k <= |order|
    decreases |order| - k
  {
    if k == |order| then None
    else if order[k] <= text then Some(order[k])
    else FirstPrefix(order, text, k + 1)
  }

  /** What `FirstPrefix` finds is a phrase of `order` starting `text`; it
      finds nothing exactly when no phrase from index `k` on starts `text`. */
  lemma {:induction false} FirstPrefixSpec(order: seq<string>, text: string, k: nat)
    requires k <= |order|
    ensures FirstPrefix(order, text, k).Some? ==>
      FirstPrefix(order, text, k).value in order && FirstPrefix(order, text, k).value <= text
    ensures FirstPrefix(order, text, k).None? <==> forall m :: k <= m < |order| ==> !(order[m] <= text)
    decreases |order| - k
  {
    if k < |order| && !(order[k] <= text) {
      FirstPrefixSpec(order, text, k + 1);
    }
  }

  /** If `order` lists longer phrases first, the first prefix found is a
      longest one. */
  lemma {:induction false} FirstPrefixIsLongest(order: seq<string>, text: string, k: nat, m: nat)
    requires LongestFirst(order)
    requires k <= m < |order| && order[m] <= text
    ensures FirstPrefix(order, text, k).Some?
    ensures |order[m]| <= |FirstPrefix(order, text, k).value|
    decreases |order| - k
  {
    if !(order[k] <= text) {
      FirstPrefixIsLongest(order, text, k + 1, m);
    }
  }

  /** The same for every phrase of a vocabulary `cs` that `order` lists:
      the phrase found belongs to `cs`, starts `text` and is at least as long
      as every phrase of `cs` that starts `text`; there is none exactly when
      no phrase of `cs` starts `text`. */
  lemma FirstPrefixAmong(order: seq<string>, cs: seq<string>, text: string)
    requires LongestFirst(order)
    requires forall c :: c in order <==> c in cs
    ensures FirstPrefix(order, text, 0).Some? ==>
      var c := FirstPrefix(order, text, 0).value;
      && c in cs && c <= text
      && forall d :: d in cs && d <= text ==> |d| <= |c|
    ensures FirstPrefix(order, text, 0).None? <==> forall d :: d in cs ==> !(d <= text)
  {
    FirstPrefixSpec(order, text, 0);
    if FirstPrefix(order, text, 0).Some? {
      forall d | d in cs && d <= text
        ensures |d| <= |FirstPrefix(order, text, 0).value|
      {
        var m :| 0 <= m < |order| && order[m] == d;
        FirstPrefixIsLongest(order, text, 0, m);
      }
    } else {
      forall d | d in cs
        ensures !(d <= text)
      {
        var m :| 0 <= m < |order| && order[m] == d;
      }
    }
  }

  /** `_match_command`: the command phrase recognised at the start of `text`. */
  function CommandOf(text: string): Option<string> {
    FirstPrefix(SearchOrder, Lower(text), 0)
  }

  /** The phrase chosen is a vocabulary phrase that case-insensitively starts
      the input and is at least as long as every other such phrase; there is
      none exactly when no phrase starts the input. */
  lemma CommandOfIsLongest(text: string)
    ensures CommandOf(text).Some? ==>
      var c := CommandOf(text).value;
      && c in Commands && c <= Lower(text) && |c| <= |text|
      && forall d :: d in Commands && d <= Lower(text) ==> |d| <= |c|
    ensures CommandOf(text).None? <==> forall d :: d in Commands ==> !(d <= Lower(text))
  {
    SearchOrderIsSorted();
    LowerLength(text);
    FirstPrefixAmong(SearchOrder, Commands, Lower(text));
  }

  /** The first index at or after `i` that holds a double quote, or `|s|`
      when there is none (the inner `while` loop of
      `_extract_string_literals`). */
  function QuoteFrom(s: string, i: nat): (k: nat)
    requires i <= |s|
    ensures i <= k <= |s|
    decreases |s| - i
  {
    if i == |s| || s[i] == Quote then i else QuoteFrom(s, i + 1)
  }

  /** No quote lies between `i` and `QuoteFrom(s, i)`, and there is one at
      it unless it is the end of `s`. */
  lemma {:induction false} QuoteFromSpec(s: string, i: nat)
    requires i <= |s|
    ensures forall m :: i <= m < QuoteFrom(s, i) ==> s[m] != Quote
    ensures QuoteFrom(s, i) < |s| ==> s[QuoteFrom(s, i)] == Quote
    decreases |s| - i
  {
    if i < |s| && s[i] != Quote {
      QuoteFromSpec(s, i + 1);
    }
  }

  /** The literals of `_extract_string_literals`, scanning `t` from index
      `i`: skip characters until a quote, take everything up to the next
      quote as one literal and continue after it; a quote that is never
      closed ends the scan. */
  function LiteralsFrom(t: string, i: nat): seq<string>
    requires i <= |t|
    decreases |t| - i
  {
    if i == |t| then []
    else if t[i] != Quote then LiteralsFrom(t, i + 1)
    else
      var j := QuoteFrom(t, i + 1);
      if j == |t| then [] else [t[i + 1..j]] + LiteralsFrom(t, j + 1)
  }

  function Literals(t: string): seq<string> {
    LiteralsFrom(t, 0)
  }

  /** Python's `t[i:].split('"')`: the pieces between quotes,
      `t[i:].count('"') + 1` of them. */
  function SplitFrom(t: string, i: nat): (r: seq<string>)
    requires i <= |t|
    ensures |r| >= 1
    decreases |t| - i
  {
    var k := QuoteFrom(t, i);
    if k == |t| then [t[i..]] else [t[i..k]] + SplitFrom(t, k + 1)
  }

  function Split(t: string): seq<string> {
    SplitFrom(t, 0)
  }

  /** The odd-numbered pieces that are followed by another piece, i.e. that
      sit between an opening and a closing quote. */
  function ClosedOddPieces(ps: seq<string>): seq<string>
    decreases |ps|
  {
    if |ps| >= 3 then [ps[1]] + ClosedOddPieces(ps[2..]) else []
  }

  /** Skipping characters that are not quotes does not change the literals. */
  lemma {:induction false} LiteralsSkip(t: string, i: nat, j: nat)
    requires i <= j <= |t|
    requires forall m :: i <= m < j ==> t[m] != Quote
    ensures LiteralsFrom(t, i) == LiteralsFrom(t, j)
    decreases j - i
  {
    if i < j {
      LiteralsSkip(t, i + 1, j);
    }
  }

  lemma ClosedOddPiecesStep(a: string, b: string, ps: seq<string>)
    requires |ps| >= 1
    ensures ClosedOddPieces([a] + ([b] + ps)) == [b] + ClosedOddPieces(ps)
  {
    var tail := [b] + ps;
    var qs := [a] + tail;
    assert qs[1..] == tail && tail[1..] == ps;
    assert qs[2..] == qs[1..][1..];
  }

  /** The literals are exactly the contents of the closed quote pairs: the
      pieces at odd positions of `t.split('"')` that are followed by a quote. */
  lemma {:induction false} LiteralsAreClosedOddPieces(t: string, i: nat)
    requires i <= |t|
    ensures LiteralsFrom(t, i) == ClosedOddPieces(SplitFrom(t, i))
    decreases |t| - i
  {
    var j := QuoteFrom(t, i);
    QuoteFromSpec(t, i);
    LiteralsSkip(t, i, j);
    if j < |t| {
      var k := QuoteFrom(t, j + 1);
      if k < |t| {
        var ps := SplitFrom(t, k + 1);
        calc {
          LiteralsFrom(t, i);
          [t[j + 1..k]] + LiteralsFrom(t, k + 1);
          == { LiteralsAreClosedOddPieces(t, k + 1); }
          [t[j + 1..k]] + ClosedOddPieces(ps);
          == { ClosedOddPiecesStep(t[i..j], t[j + 1..k], ps); }
          ClosedOddPieces([t[i..j]] + ([t[j + 1..k]] + ps));
          ClosedOddPieces(SplitFrom(t, i));
        }
      }
    }
  }

  /** No literal contains a quote. */
  lemma {:induction false} LiteralsHaveNoQuotes(t: string, i: nat)
    requires i <= |t|
    ensures forall v :: v in LiteralsFrom(t, i) ==> Quote !in v
    decreases |t| - i
  {
    if i < |t| {
      if t[i] != Quote {
        LiteralsHaveNoQuotes(t, i + 1);
      } else {
        var j := QuoteFrom(t, i + 1);
        QuoteFromSpec(t, i + 1);
        if j < |t| {
          LiteralsHaveNoQuotes(t, j + 1);
        }
      }
    }
  }

  /** One token per literal, in order. */
  function LiteralTokens(vs: seq<string>): seq<Token> {
    seq(|vs|, k requires 0 <= k < |vs| => Token(StringLiteral, vs[k]))
  }

  /** The token list of an already trimmed input. */
  function Tokens(text: string): seq<Token> {
    match CommandOf(text)
    case None => [EofToken]
    case Some(c) =>
      [Token(Command, c)] + LiteralTokens(Literals(Trim(Suffix(text, |c|)))) + [EofToken]
  }

  /** `CosmeticsTokenizer(raw).tokenize()`. */
  function TokensOf(raw: string): seq<Token> {
    Tokens(Trim(raw))
  }

  /** The token list starts with a command token exactly when a phrase
      matched, and that token holds the phrase; otherwise the list is just
      the end token. */
  lemma TokensHead(text: string)
    ensures Tokens(text)[0].kind == Command <==> CommandOf(text).Some?
    ensures CommandOf(text).Some? ==> Tokens(text)[0] == Token(Command, CommandOf(text).value)
    ensures CommandOf(text).None? ==> Tokens(text) == [EofToken]
  {
  }

  /** Unfolds `Tokens` once the phrase `c` is known to match. */
  lemma TokensOfCommand(text: string, c: string)
    requires CommandOf(text) == Some(c)
    ensures Tokens(text) == [Token(Command, c)] + LiteralTokens(Literals(Trim(Suffix(text, |c|)))) + [EofToken]
  {
  }

  /** The literals from index 0: the closed odd pieces of `t.split('"')`. */
  lemma LiteralsAreSplitPieces(t: string)
    ensures Literals(t) == ClosedOddPieces(Split(t))
  {
    LiteralsAreClosedOddPieces(t, 0);
  }

  /** When the phrase `c` matched, the tokens are the command, one literal
      token for each piece of the trimmed rest that lies between an opening
      and a closing quote, in order, and the end token. */
  lemma TokensAreSplitPieces(text: string, c: string)
    requires CommandOf(text) == Some(c)
    ensures Tokens(text) ==
      [Token(Command, c)] + LiteralTokens(ClosedOddPieces(Split(Trim(Suffix(text, |c|))))) + [EofToken]
  {
    TokensOfCommand(text, c);
    LiteralsAreSplitPieces(Trim(Suffix(text, |c|)));
  }

  /** Every token list ends in the one and only end token, and every token
      between the command and the end token is a literal. */
  lemma TokensShape(text: string)
    ensures |Tokens(text)| >= 1 && Tokens(text)[|Tokens(text)| - 1] == EofToken
    ensures forall k :: 0 <= k < |Tokens(text)| - 1 ==> Tokens(text)[k].kind != Eof
    ensures forall k :: 1 <= k < |Tokens(text)| - 1 ==> Tokens(text)[k].kind == StringLiteral
  {
    var cmd := CommandOf(text);
    if cmd.Some? {
      var lits := LiteralTokens(Literals(Trim(Suffix(text, |cmd.value|))));
      var ts := [Token(Command, cmd.value)] + lits + [EofToken];
      TokensOfCommand(text, cmd.value);
      forall k | 1 <= k < |ts| - 1
        ensures ts[k].kind == StringLiteral
      {
        assert ts[k] == lits[k - 1];
      }
    }
  }

  /** The loop of `_match_command`: the phrases of `order` are tried one by
      one and the first that starts `text` is returned. */
  method FindPrefix(order: seq<string>, text: string) returns (r: Option<string>)
    ensures r == FirstPrefix(order, text, 0)
  {
    var k := 0;
    while k < |order|
      invariant 0 <= k <= |order|
      invariant FirstPrefix(order, text, 0) == FirstPrefix(order, text, k)
    {
      if order[k] <= text {
        return Some(order[k]);
      }
      k := k + 1;
    }
    return None;
  }

  /** The scan of `_extract_string_literals` over `text`: a quote opens a
      literal, the inner loop looks for the closing quote, and a quote that
      is never closed stops the scan. */
  method ScanLiterals(text: string) returns (found: seq<Token>)
    ensures found == LiteralTokens(Literals(text))
  {
    found := [];
    ghost var values: seq<string> := [];
    var i := 0;
    while i < |text|
      invariant 0 <= i <= |text|
      invariant Literals(text) == values + LiteralsFrom(text, i)
      invariant found == LiteralTokens(values)
    {
      if text[i] == Quote {
        var j := i + 1;
        while j < |text| && text[j] != Quote
          invariant i + 1 <= j <= |text|
          invariant QuoteFrom(text, i + 1) == QuoteFrom(text, j)
        {
          j := j + 1;
        }
        if j < |text| && text[j] == Quote {
          var value := text[i + 1..j];
          assert LiteralsFrom(text, i) == [value] + LiteralsFrom(text, j + 1);
          assert values + ([value] + LiteralsFrom(text, j + 1)) == (values + [value]) + LiteralsFrom(text, j + 1);
          found := found + [Token(StringLiteral, value)];
          values := values + [value];
          i := j + 1;
        } else {
          assert LiteralsFrom(text, i) == [];
          break;
        }
      } else {
        i := i + 1;
      }
    }
    assert values == Literals(text);
  }

  /** Tokenizes an input held in `input`, the way `CosmeticsTokenizer` does:
      `tokens` and `position` are rebuilt on every call. */
  class CosmeticsTokenizer {
    const input: string
    var tokens: seq<Token>
    var position: nat

    constructor (inputText: string)
      ensures input == Trim(inputText)
      ensures tokens == [] && position == 0
    {
      input := Trim(inputText);
      tokens := [];
      position := 0;
    }

    method Tokenize() returns (r: seq<Token>)
      modifies this
      ensures r == tokens == Tokens(input)
      ensures position == if CommandOf(input).Some? then |CommandOf(input).value| else 0
    {
      tokens := [];
      position := 0;
      var cmd := MatchCommand();
      if cmd.Some? {
        tokens := tokens + [cmd.value];
        assert tokens == [cmd.value];
        ExtractStringLiterals();
        ghost var lits := LiteralTokens(Literals(Trim(Suffix(input, |cmd.value.value|))));
        assert tokens == [cmd.value] + lits;
        TokensOfCommand(input, cmd.value.value);
      } else {
        TokensHead(input);
      }
      tokens := tokens + [EofToken];
      r := tokens;
    }

    /** Tries the phrases longest first; on a match, `position` is set to the
        phrase's length. */
    method MatchCommand() returns (cmd: Option<Token>)
      modifies this`position
      ensures cmd.None? <==> CommandOf(input).None?
      ensures cmd.Some? ==> cmd.value == Token(Command, CommandOf(input).value)
      ensures position == if cmd.Some? then |cmd.value.value| else old(position)
    {
      var phrase := FindPrefix(SearchOrder, Lower(input));
      if phrase.Some? {
        position := |phrase.value|;
        return Some(Token(Command, phrase.value));
      }
      return None;
    }

    /** Appends a literal token for every closed quote pair in the trimmed
        rest of the input after `position`. */
    method ExtractStringLiterals()
      modifies this`tokens
      ensures tokens == old(tokens) + LiteralTokens(Literals(Trim(Suffix(input, position))))
    {
      var found := ScanLiterals(Trim(Suffix(input, position)));
      tokens := tokens + found;
    }
  }
}
