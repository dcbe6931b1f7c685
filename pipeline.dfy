/**
 * The whole front end, from input text to command record.
 */
module Pipeline {
  import opened Wrappers
  import opened Text
  import opened Tokenizer
  import opened Parser
  import opened Session

  /** Tokenize, then parse. */
  function Interpret(raw: string): Result<Ast, ParseError> {
    ParseTokens(TokensOf(raw))
  }

  /** Input text is accepted exactly when it starts with a command phrase
      and the number of closed quote pairs after the phrase is within that
      command's bounds; the record then holds the longest phrase and the
      quoted contents in order. The unknown-command error cannot arise. */
  lemma {:induction false} InterpretAccepts(raw: string)
    ensures CommandOf(Trim(raw)).None? ==> Interpret(raw) == Err(ExpectedCommand)
    ensures CommandOf(Trim(raw)).Some? ==>
      var c := CommandOf(Trim(raw)).value;
      var lits := Literals(Trim(Suffix(Trim(raw), |c|)));
      && c in CommandRules
      && Interpret(raw) ==
        if CommandRules[c].min <= |lits| <= CommandRules[c].max then Ok(Ast(c, lits))
        else Err(ArityMismatch(c, CommandRules[c].min, CommandRules[c].max, |lits|))
  {
    var text := Trim(raw);
    CommandOfIsLongest(text);
    RulesCoverVocabulary();
    if CommandOf(text).Some? {
      var c := CommandOf(text).value;
      ParseArity(c, Literals(Trim(Suffix(text, |c|))));
    }
  }

  /** Whatever the parser accepts, the executor can be handed. */
  lemma InterpretedHasArgument(raw: string)
    requires Interpret(raw).Ok?
    ensures ArgumentPresent(Interpret(raw).value)
  {
    var ts := TokensOf(raw);
    ParseAccepts(ts);
    ParsedHasArgument(ParseTokens(ts).value);
  }

  /** No other phrase of at least 13 characters shares a prefix with
      "add item list". */
  lemma AddItemListOnly(c: string, t: string)
    requires c in Commands && c <= t && |c| >= 13
    requires "add item list" <= t
    ensures c == "add item list"
  {
    assert t[0] == 'a' && t[1] == 'd';
    assert c[0] == 'a' && c[1] == 'd';
  }

  /** Input starting with "add item list" is read as that command, never as
      "add item" followed by " list". */
  lemma AddItemListIsNotAddItem(text: string)
    requires "add item list" <= Lower(text)
    ensures CommandOf(text) == Some("add item list")
  {
    CommandOfIsLongest(text);
    var t := Lower(text);
    assert "add item list" in Commands;
    assert CommandOf(text).Some?;
    var c := CommandOf(text).value;
    assert |c| >= 13;
    AddItemListOnly(c, t);
  }
}
