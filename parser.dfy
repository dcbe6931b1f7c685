/**
 * The parser of the cosmetics command language (`CosmeticsParser`): a
 * leading command token, then the run of literal tokens after it, checked
 * against the command's argument bounds.
 */
module Parser {
  import opened Wrappers
  import opened Tokenizer

  /** The command record handed to the executor. */
  datatype Ast = Ast(command: string, arguments: seq<string>)

  /** The `ParseError` cases, with what each message reports. */
  datatype ParseError =
    | ExpectedCommand
    | UnknownCommand(command: string)
    | ArityMismatch(command: string, min: nat, max: nat, got: nat)

  /** Inclusive bounds on a command's number of quoted arguments. */
  datatype Arity = Arity(min: nat, max: nat)

  /** `COMMAND_RULES`. */
  const CommandRules: map<string, Arity> := map[
    "apply theme" := Arity(1, 1),
    "add item" := Arity(1, 1),
    "remove item" := Arity(1, 1),
    "clear inventory" := Arity(0, 0),
    "add item list" := Arity(1, 99),
    "color palette" := Arity(1, 99),
    "assemble cosmetic" := Arity(0, 0),
    "register" := Arity(2, 2),
    "login" := Arity(1, 1),
    "logout" := Arity(0, 0),
    "exit" := Arity(0, 0)
  ]

  /** Every phrase the tokenizer can produce has a rule. */
  lemma RulesCoverVocabulary()
    ensures forall c :: c in Commands ==> c in CommandRules
  {
  }

  /** The values of the run of literal tokens that starts `ts`. */
  function LeadingLiterals(ts: seq<Token>): (r: seq<string>)
    ensures |r| <= |ts|
    ensures forall k :: 0 <= k < |r| ==> ts[k].kind == StringLiteral && r[k] == ts[k].value
    ensures |r| < |ts| ==> ts[|r|].kind != StringLiteral
  {
    if ts != [] && ts[0].kind == StringLiteral then [ts[0].value] + LeadingLiterals(ts[1..]) else []
  }

  /** A run of `n` literal tokens followed by the end of the list or by a
      token of another kind is exactly what `LeadingLiterals` collects. */
  lemma LeadingLiteralsUnique(ts: seq<Token>, n: nat)
    requires n <= |ts|
    requires forall k :: 0 <= k < n ==> ts[k].kind == StringLiteral
    requires n < |ts| ==> ts[n].kind != StringLiteral
    ensures |LeadingLiterals(ts)| == n
    ensures forall k :: 0 <= k < n ==> LeadingLiterals(ts)[k] == ts[k].value
  {
  }

  /** `parse`. */
  function ParseTokens(ts: seq<Token>): Result<Ast, ParseError> {
    if ts == [] || ts[0].kind != Command then Err(ExpectedCommand)
    else if ts[0].value !in CommandRules then Err(UnknownCommand(ts[0].value))
    else
      var args := LeadingLiterals(ts[1..]);
      var rule := CommandRules[ts[0].value];
      if rule.min <= |args| <= rule.max then Ok(Ast(ts[0].value, args))
      else Err(ArityMismatch(ts[0].value, rule.min, rule.max, |args|))
  }

  /** A command record within its command's bounds. */
  predicate WithinArity(ast: Ast) {
    ast.command in CommandRules &&
    CommandRules[ast.command].min <= |ast.arguments| <= CommandRules[ast.command].max
  }

  /** Parsing succeeds exactly when the list starts with a known command
      whose literal run has an allowed length; the record then holds that
      command and the run's values in order, and it is within bounds. */
  lemma ParseAccepts(ts: seq<Token>)
    ensures ParseTokens(ts).Ok? <==>
      && ts != [] && ts[0].kind == Command && ts[0].value in CommandRules
      && CommandRules[ts[0].value].min <= |LeadingLiterals(ts[1..])| <= CommandRules[ts[0].value].max
    ensures ParseTokens(ts).Ok? ==>
      && ParseTokens(ts).value == Ast(ts[0].value, LeadingLiterals(ts[1..]))
      && WithinArity(ParseTokens(ts).value)
  {
  }

  /** The literal tokens of a token list are recovered as the arguments. */
  lemma {:induction false} LeadingLiteralsOfLiteralTokens(args: seq<string>, rest: seq<Token>)
    requires rest == [] || rest[0].kind != StringLiteral
    ensures LeadingLiterals(LiteralTokens(args) + rest) == args
  {
    var ts := LiteralTokens(args) + rest;
    LeadingLiteralsUnique(ts, |args|);
    var r := LeadingLiterals(ts);
    assert |r| == |args|;
    forall k | 0 <= k < |args| ensures r[k] == args[k] {
      assert ts[k] == LiteralTokens(args)[k];
    }
  }

  /** For a command with bounds [min, max] followed by k quoted arguments
      and the end marker, parsing succeeds iff min <= k <= max; otherwise it
      reports the command, its bounds and k. */
  lemma {:induction false} ParseArity(command: string, args: seq<string>)
    requires command in CommandRules
    ensures var rule := CommandRules[command];
      ParseTokens([Token(Command, command)] + LiteralTokens(args) + [EofToken]) ==
        if rule.min <= |args| <= rule.max then Ok(Ast(command, args))
        else Err(ArityMismatch(command, rule.min, rule.max, |args|))
  {
    var ts := [Token(Command, command)] + LiteralTokens(args) + [EofToken];
    assert ts[1..] == LiteralTokens(args) + [EofToken];
    LeadingLiteralsOfLiteralTokens(args, [EofToken]);
  }

  /** Parses the token list it holds, advancing `i` over the literals as
      `CosmeticsParser.parse` does. */
  class CosmeticsParser {
    const tokens: seq<Token>
    var i: nat

    constructor (tokens: seq<Token>)
      ensures this.tokens == tokens && i == 0
    {
      this.tokens := tokens;
      i := 0;
    }

    method Parse() returns (r: Result<Ast, ParseError>)
      modifies this`i
      ensures r == ParseTokens(tokens)
      ensures i == if r == Err(ExpectedCommand) then old(i)
                   else if r.Err? && r.error.UnknownCommand? then 1
                   else 1 + |LeadingLiterals(tokens[1..])|
    {
      if tokens == [] || tokens[0].kind != Command {
        return Err(ExpectedCommand);
      }
      var cmd := tokens[0].value;
      i := 1;
      if cmd !in CommandRules {
        return Err(UnknownCommand(cmd));
      }
      var args := [];
      while i < |tokens| && tokens[i].kind == StringLiteral
        invariant 1 <= i <= |tokens|
        invariant |args| == i - 1
        invariant forall k :: 1 <= k < i ==> tokens[k].kind == StringLiteral && args[k - 1] == tokens[k].value
      {
        args := args + [tokens[i].value];
        i := i + 1;
      }
      LeadingLiteralsUnique(tokens[1..], i - 1);
      assert args == LeadingLiterals(tokens[1..]);
      var rule := CommandRules[cmd];
      if !(rule.min <= |args| <= rule.max) {
        return Err(ArityMismatch(cmd, rule.min, rule.max, |args|));
      }
      return Ok(Ast(cmd, args));
    }
  }
}
