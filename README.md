# Cosmetic interpreter: a verified model

This project models the command interpreter at the heart of the cosmetics
app (`app.py`), which has three parts:

- **Tokenizer** (`CosmeticsTokenizer`). It finds the longest command phrase
  from an 11-phrase vocabulary that starts the trimmed input, ignoring case.
  It then turns every closed `"..."` pair in the rest of the input into a
  literal token and appends an end token.
- **Parser** (`CosmeticsParser`). It demands a leading command token and
  collects the run of literal tokens after it as the arguments. It checks
  their number against the per-command bounds of `COMMAND_RULES`.
- **Executor** (`CosmeticsExecutor`). It holds the session (theme, a set of
  lower-cased items, a list of lower-cased colours) and applies the seven
  session commands. It also runs the outfit matching over a fixed
  catalogue of outfits: it reports exact and near matches for
  `assemble cosmetic`, and lists the exact matches in catalogue order for
  `get_matching_outfits`.

The three Python classes that update their own fields
(`CosmeticsTokenizer`, `CosmeticsParser`, `CosmeticsExecutor`) are Dafny
classes with those fields.

- Each method frames only the fields it changes.
- `Tokenize`, `Parse`, `Execute`, `AssembleCosmetic` and `GetMatchingOutfits`
  are proved equal to value-level specification functions.
- The six command methods (`ApplyTheme` to `SetColorPalette`) state their
  new fields and report directly.
- The records (`Token`, `TokenType`, `ASTNode`, `CosmeticOutfit`,
  `OutfitMatch`) and the two error types are datatypes.
- `Parse` and `AddItemList` keep their loops inside the class.
- The loops of `_match_command`, `_extract_string_literals`,
  `_assemble_cosmetic` and `get_matching_outfits` are module-level methods
  (`FindPrefix`, `ScanLiterals`, `ClassifyOutfits`, `SelectFitting`), each
  proved equal to its specification function. The class methods call them.

The properties of the interpreter are lemmas about the specification
functions. The modules are:

- `Wrappers`: `Option` and `Result`.
- `Text`: ASCII `lower`, `strip` and slicing.
- `Tokenizer` and `Parser`: the two front-end classes and their specifications.
- `Catalog`: the outfit records and `from_dict`.
- `Matching`: the set algebra of matching.
- `Session`: the session as a value and every command's effect on it.
- `Executor`: the executor class over its fields.
- `Pipeline`: tokenizing combined with parsing.
- `Scenarios`: concrete runs.

Messages are modelled as tagged outcomes that carry the values the message
text shows: `Session.Outcome`, `Parser.ParseError` and
`Session.ExecutionError`.

Three facts about `app.py` shape the model:

- The command vocabulary has 11 phrases.
- `color palette` keeps duplicate colours.
- Outfit colours are lower-cased before they are compared with the palette.

## Model

| member | source | states |
|---|---|---|
| Tokenizer.SearchOrderIsSorted | app.py:83 | The search order is the vocabulary, sorted longest first. |
| Tokenizer.CommandOf | app.py:81-87 | No contract. It defines `_match_command` as the first phrase of the longest-first order that is a prefix of the lower-cased input. |
| Tokenizer.FirstPrefix | app.py:83-87 | No contract; requires `k <= |order|`. It defines the `for cmd in ...: if text.startswith(cmd): return` loop: the first phrase of the order, from index `k` on, that is a prefix of the text, or none. |
| Tokenizer.FirstPrefixSpec | app.py:83-87 | The phrase tried first that starts the text is a phrase of the order and a prefix of the text. None is found exactly when no phrase is a prefix. |
| Tokenizer.FirstPrefixIsLongest | app.py:83-86 | In a longest-first order, the phrase found is at least as long as any later phrase that also starts the text. |
| Tokenizer.FirstPrefixAmong | app.py:83-87 | For any vocabulary the order lists, the phrase found belongs to it, starts the text and is at least as long as every phrase of it that starts the text. None is found iff no phrase starts the text. |
| Tokenizer.CommandOfIsLongest | app.py:81-87 | The command matched is the longest vocabulary phrase that is a case-insensitive prefix of the input. There is none iff no phrase is such a prefix. |
| Tokenizer.QuoteFrom | app.py:95-97 | The closing-quote search stops at an index between its start and the end of the text. |
| Tokenizer.QuoteFromSpec | app.py:95-97 | No quote lies before the index the search stops at. The text has a quote at that index unless it is the end. |
| Tokenizer.LiteralsFrom | app.py:89-105 | No contract; requires `i <= |t|`. It defines the scan from index `i`: skip non-quotes, take the text up to the next quote as a literal, and stop at an unclosed quote. |
| Tokenizer.Literals | app.py:89-105 | No contract. It defines the literals of a text as the scan from index 0. |
| Tokenizer.SplitFrom | app.py:89-105 | Reference for Python's `t[i:].split('"')`, which app.py does not call: it yields at least one piece. The scan of these lines is proved against it by `LiteralsAreClosedOddPieces`. |
| Tokenizer.LiteralsSkip | app.py:103-105 | Characters other than quotes are skipped without changing the literals. |
| Tokenizer.LiteralsAreClosedOddPieces | app.py:89-105 | The literals are exactly the odd pieces of `text.split('"')` that are closed by a further quote, in order. An unclosed quote drops what follows it. |
| Tokenizer.LiteralsHaveNoQuotes | app.py:94-100 | No literal contains a double quote. |
| Tokenizer.TokensHead | app.py:69-79 | The first token is a command token iff a phrase matched, and it holds that phrase. With no match, the tokens are just the end token. |
| Tokenizer.Tokens | app.py:69-79 | No contract. It defines the token list of a trimmed input: just the end token with no phrase, otherwise the command, the literal tokens of the trimmed rest, and the end token. |
| Tokenizer.LiteralTokens | app.py:100 | No contract. It defines the tokens appended by the scan: one string-literal token per extracted value, in order. |
| Tokenizer.TokensOf | app.py:64-79 | No contract. It defines `CosmeticsTokenizer(raw).tokenize()` as `Tokens` of the trimmed input. |
| Tokenizer.LiteralsAreSplitPieces | app.py:89-105 | The literals of a whole text are the closed odd pieces of `text.split('"')`. |
| Tokenizer.TokensAreSplitPieces | app.py:69-105 | With phrase `c` matched, the tokens are the command, one literal token for each piece of the trimmed rest after `c` that lies between an opening and a closing quote, in order, then the end token. |
| Tokenizer.TokensShape | app.py:69-79 | The last token is the end token and it is the only one. Every token between the command and the end is a literal. |
| Tokenizer.FindPrefix | app.py:83-87 | The loop over the phrases returns the first phrase that is a prefix of the text, or none. |
| Tokenizer.ScanLiterals | app.py:89-105 | The nested scanning loops produce one literal token for each closed quote pair, in order, and stop at an unclosed quote. |
| Tokenizer.CosmeticsTokenizer.constructor | app.py:64-67 | The input is trimmed. The token list is empty and the position is 0. |
| Tokenizer.CosmeticsTokenizer.Tokenize | app.py:69-79 | The token list is rebuilt and returned as the tokens of the trimmed input. The position is the matched phrase's length, or 0. |
| Tokenizer.CosmeticsTokenizer.MatchCommand | app.py:81-87 | It returns a command token iff a phrase matches, holding the longest phrase. The position is set to that phrase's length. |
| Tokenizer.CosmeticsTokenizer.ExtractStringLiterals | app.py:89-105 | It appends the literal tokens of the trimmed rest of the input that follows the position. |
| Parser.RulesCoverVocabulary | app.py:108-120 | Every vocabulary phrase has an arity rule. |
| Parser.LeadingLiterals | app.py:135-138 | The collected values are those of a run of literal tokens starting the list. The token after the run is not a literal. |
| Parser.LeadingLiteralsUnique | app.py:135-138 | A run of `n` literals that ends at a non-literal or at the end of the list is exactly what is collected. |
| Parser.ParseTokens | app.py:126-143 | No contract. It defines `parse`: `ExpectedCommand` when no command leads, `UnknownCommand` when it has no rule, `ArityMismatch` when the literal run is out of bounds, and otherwise the record. |
| Parser.ParseAccepts | app.py:126-143 | Parsing succeeds iff the first token is a known command whose literal run has an allowed length. The record is then that command plus the run's values, within bounds. |
| Parser.LeadingLiteralsOfLiteralTokens | app.py:135-138 | The arguments recovered from literal tokens are the literals themselves. |
| Parser.ParseArity | app.py:140-143 | For a command followed by k literals and the end token, the result is accepted iff min <= k <= max. Otherwise the error carries the command, its bounds and k. |
| Parser.CosmeticsParser.constructor | app.py:122-124 | The parser holds the tokens, with the cursor at 0. |
| Parser.CosmeticsParser.Parse | app.py:126-143 | The result equals `ParseTokens`. The cursor stops after the literal run, at 1 for an unknown command, or stays where it was when no command leads. |
| Catalog.FromDictRoundTrip | app.py:157-166 | Reading an entry that spells out every field gives back the outfit. |
| Catalog.FromDict | app.py:157-166 | No contract. It defines `from_dict`: each field takes its value, or its default when absent. |
| Catalog.FromDictDefaults | app.py:157-166 | In any entry, each absent field reads as the empty string or the empty list, whatever the other fields are. |
| Catalog.FromDictPresent | app.py:157-166 | In any entry, each present field reads as its value, whatever the other fields are. |
| Matching.ExactIffFits | app.py:305-314 | An outfit classifies as exact iff its lower-cased items are owned and, when a palette is set, its lower-cased colours are in the palette. |
| Matching.MissingItems | app.py:306-308 | No contract. It defines `missing_items`: the outfit's lower-cased items minus the inventory. |
| Matching.MissingColors | app.py:303-309 | No contract. It defines `missing_colors`: empty when no palette is set, otherwise the outfit's lower-cased colours minus the palette's members. |
| Matching.Classify | app.py:310-313 | No contract. It defines the `OutfitMatch(o, missing_items, missing_colors)` built for each theme outfit. |
| Matching.OfTheme | app.py:297 | No contract. It defines the theme test `o.theme.lower() == self.theme`, used again at line 328. |
| Matching.MissingColorsIgnoresOrder | app.py:303-309 | Colour matching depends only on the palette's members, not on their order or repeats. |
| Matching.ThemeOutfits | app.py:297 | The theme outfits are the catalogue outfits whose lower-cased theme is the session theme, and no more. |
| Matching.ThemeOutfitsAppend | app.py:297 | The filter keeps catalogue order and repeats: filtering `a + b` gives the filter of `a` followed by that of `b`. |
| Matching.ThemeOutfitsSingle | app.py:297 | A one-outfit catalogue keeps its outfit iff the outfit has the theme. |
| Matching.NoThemeOutfits | app.py:297-299 | A catalogue with no outfit of the theme has no theme outfits. |
| Matching.ExactOf | app.py:301-314 | No contract. It defines `exact`: the classifications of the theme outfits with nothing missing, in order. |
| Matching.NearOf | app.py:301-314 | No contract. It defines `near`: the classifications of the other theme outfits, in order, with what each lacks. |
| Matching.ExactNearPartition | app.py:305-314 | The exact and near lists together are as long as the theme's outfit list. |
| Matching.FittingOutfitsMembers | app.py:326-337 | An outfit is listed iff it is in the catalogue, has the theme and fits. |
| Matching.FittingOutfitsAppend | app.py:326-337 | The listing keeps catalogue order: the listing of `a + b` is the listing of `a` followed by that of `b`. |
| Matching.FittingOutfits | app.py:326-337 | No contract. It defines the listing loop: the outfits of the theme that fit, in catalogue order. |
| Matching.FittingAreExact | app.py:297-337 | The listing equals the outfits of `_assemble_cosmetic`'s exact matches, in the same order. |
| Session.ParsedHasArgument | app.py:240-247 | A record within its arity bounds carries the `args[0]` that `execute` reads. |
| Session.ThemeSet | app.py:293 | No contract. It defines the `if not self.theme` test negated, used again at line 322: a theme is set and is not the empty string. |
| Session.Execute | app.py:240-256 | No contract; requires `ArgumentPresent(ast)`. It defines `execute`: the seven session commands give their step, and any other command gives `UnknownCommand`. |
| Session.ApplyTheme | app.py:258-260 | No contract. It defines `_apply_theme`: the theme becomes the lower-cased argument. |
| Session.AddItem | app.py:262-267 | No contract. It defines `_add_item`: a warning with no change when the lower-cased item is owned, and insertion otherwise. |
| Session.RemoveItem | app.py:269-274 | No contract. It defines `_remove_item`: a warning with no change when the lower-cased item is absent, and deletion otherwise. |
| Session.ClearInventory | app.py:276-278 | No contract. It defines `_clear_inventory`: the inventory becomes empty. |
| Session.AddItemList | app.py:280-286 | No contract. It defines `_add_item_list` in closed form: the inventory gains the lower-cased names, and the count is the names not owned before. |
| Session.AddEach | app.py:281-285 | No contract. It defines the `_add_item_list` loop as written: `add item` on each name in turn, counting the additions. |
| Session.SetColorPalette | app.py:288-290 | No contract. It defines `_set_color_palette`: the palette becomes the lower-cased colours. |
| Session.Assemble | app.py:292-319 | No contract. It defines `_assemble_cosmetic`: the three soft errors in order, then exact, near or no matches. |
| Session.MatchingOutfits | app.py:321-337 | No contract. It defines `get_matching_outfits`: nothing without a theme, otherwise the fitting outfits of the theme. |
| Session.ExecuteDispatch | app.py:240-256 | `execute` succeeds iff the command is one of the seven session commands. register, login, logout and exit fail with `ExecutionError`. |
| Session.AddItemMembers | app.py:262-267 | After `add item`, the inventory is the old inventory plus the lower-cased item. It reports an addition iff the item was absent, and leaves the session unchanged on a warning. Theme and palette are untouched. |
| Session.RemoveItemMembers | app.py:269-274 | After `remove item`, the inventory is the old inventory minus the lower-cased item. It reports a removal iff the item was present, and leaves the session unchanged on a warning. Theme and palette are untouched. |
| Session.AddItemIdempotent | app.py:262-267 | Adding an item again, in any letter case, warns and changes nothing. |
| Session.AddThenRemove | app.py:262-274 | Adding an absent item and then removing it restores the session. |
| Session.RemoveThenAdd | app.py:262-274 | Removing a present item and then adding it restores the session. |
| Session.AddItemListIsRepeatedAdd | app.py:280-286 | `add item list` equals `add item` applied to each name in turn: the same final session, with the count of names that were added. |
| Session.AddItemListCount | app.py:280-286 | The reported count is |new inventory| - |old inventory|. |
| Session.ClearThenAssemble | app.py:276-296 | After `clear inventory` nothing is owned, nothing else changes, and assembling with a theme reports the empty inventory. |
| Session.PaletteIsLowered | app.py:288-290 | The palette becomes the lower-cased colours: same length and order, duplicates kept. Theme and inventory are untouched. |
| Session.AssembleChangesNothing | app.py:254-255 | `assemble cosmetic` leaves the session as it was. |
| Session.ExecutePreservesNormalized | app.py:240-290 | Every command keeps the theme, the items and the palette lower-case. |
| Session.AssembleNeverReportsNoMatches | app.py:292-319 | The "no matches found" report at line 319 is unreachable. |
| Session.AssembleSoftErrors | app.py:292-299 | The soft errors come in order: no theme (unset or empty), then an empty inventory, then no outfit of the theme. With no theme the listing is empty. |
| Session.AssembleReportsExact | app.py:292-337 | When any outfit fits, exact matches are reported, and their number is the length of the `get_matching_outfits` listing. |
| Session.AssembleReportsNear | app.py:292-318 | When the theme has outfits but none fits, all of them are reported as near matches. |
| Session.MatchingOutfitsMembers | app.py:321-337 | An outfit is listed iff a theme is set, the outfit is in the catalogue, its theme matches case-insensitively, and it fits. |
| Executor.ClassifyOutfits | app.py:301-314 | The classification loop builds exactly the exact and near lists of the specification. |
| Executor.SelectFitting | app.py:326-337 | The loop with its three `continue` tests builds exactly the fitting outfits of the theme, in catalogue order. |
| Executor.CosmeticsExecutor.constructor | app.py:233-238 | The outfits are the catalogue entries read by `from_dict`, in order. The session starts empty. |
| Executor.CosmeticsExecutor.Execute | app.py:240-256 | The new fields and the report are those of `Session.Execute`. An unknown command fails and changes nothing. |
| Executor.CosmeticsExecutor.ApplyTheme | app.py:258-260 | The theme becomes the lower-cased argument. |
| Executor.CosmeticsExecutor.AddItem | app.py:262-267 | It warns without change when the lower-cased item is owned, and adds it otherwise. It changes only the inventory. |
| Executor.CosmeticsExecutor.RemoveItem | app.py:269-274 | It warns without change when the lower-cased item is absent, and removes it otherwise. It changes only the inventory. |
| Executor.CosmeticsExecutor.ClearInventory | app.py:276-278 | The inventory becomes empty. |
| Executor.CosmeticsExecutor.AddItemList | app.py:280-286 | The inventory gains every lower-cased name. The reported count is how much it grew, which equals the number of new names. |
| Executor.CosmeticsExecutor.SetColorPalette | app.py:288-290 | The palette becomes the lower-cased colours. |
| Executor.CosmeticsExecutor.AssembleCosmetic | app.py:292-319 | The report is `Session.Assemble` of the current fields, and no field changes. |
| Executor.CosmeticsExecutor.GetMatchingOutfits | app.py:321-337 | The result is `Session.MatchingOutfits` of the current fields, and no field changes. |
| Pipeline.InterpretAccepts | app.py:69-143 | Input is rejected when no phrase starts it. Otherwise it is accepted iff the number of closed quote pairs after the longest phrase is within that command's bounds, giving that phrase and the quoted contents. The unknown-command error cannot arise. |
| Pipeline.InterpretedHasArgument | app.py:126-143 | Every parsed record can be handed to `execute`. |
| Pipeline.AddItemListIsNotAddItem | app.py:81-87 | Input starting with "add item list" is read as that command, never as "add item". |
| Text.TrimSpec | app.py:65 | The result is the slice of the input between a run of leading whitespace and a run of trailing whitespace, with no whitespace at either end. It is empty iff the input is all whitespace. |
| Text.Trim | app.py:65 | No contract. It defines `strip` on ASCII whitespace: skip leading whitespace, then drop trailing whitespace. |
| Text.Lower | app.py:82 | No contract. It defines `lower` on ASCII: each letter A-Z is folded to a-z, and length and order are kept. |
| Text.LowerAll | app.py:289 | No contract. It defines `[c.lower() for c in colors]`: each string lower-cased, keeping length and order. |
| Text.LowerSet | app.py:306-307 | No contract. It defines `set(x.lower() for x in xs)`, used again at lines 330-331: the set of the lower-cased strings. |
| Text.Suffix | app.py:91 | No contract. It defines `self.input[self.position:]`: the text from index `n` on, or empty past the end. |
| Scenarios.JacketTwice | app.py:262-267 | Adding "Jacket" stores "jacket", and adding "jacket" afterwards warns without change. |
| Scenarios.OneLiteral | app.py:89-105 | `"a"` yields the single literal `a`. |
| Scenarios.UnclosedQuoteDropped | app.py:89-105 | `"a" "b` yields only `a`: the unclosed quote is dropped. |
| Scenarios.SingleOutfit | app.py:292-318 | A one-outfit catalogue of the theme reports one exact match when the outfit fits, and one near match otherwise. |
| Scenarios.PartialThenExact | app.py:292-318 | A jacket alone is a near match for the jacket-and-boots outfit. Adding boots makes it an exact match. |
| Scenarios.ExactWithPalette | app.py:292-337 | Owning both items with the outfit's colour as the palette gives one exact match, and the listing is that outfit. |

## Left out

- `FirebaseManager` (app.py:177-227): network calls into an authentication and database service whose code is not part of this model.
- `load_cosmetics_library` and `image_path_for`: file input, JSON decoding and path joining. The catalogue is a given sequence of decoded entries (`Catalog.OutfitDoc`).
- The Streamlit user interface, its session store and its inventory synchronisation.
- Message text: every message is a tagged outcome carrying the values it shows.
- `image_base_path`: it is only used to build display paths.
- Python's Unicode `str.lower` and `str.strip`: `Text.Lower` folds ASCII letters only, and `Text.Trim` strips ASCII whitespace only.
- The `position` of each token: it is never read by the parser. The tokenizer's own `position` field is kept, because it selects the rest of the input.
- Session.Execute: requires `ArgumentPresent`. The one-argument commands read `args[0]`, where Python would raise `IndexError` on an empty list. Every record the parser produces meets this (`Pipeline.InterpretedHasArgument`).
- Executor.CosmeticsExecutor.Execute: carries the same `ArgumentPresent` requirement as `Session.Execute`.
- The loops of `_match_command`, `_extract_string_literals`, `_assemble_cosmetic` and `get_matching_outfits` are module-level methods (`Tokenizer.FindPrefix`, `Tokenizer.ScanLiterals`, `Executor.ClassifyOutfits`, `Executor.SelectFitting`) that the class methods call. The last two build local lists, as the source does. The first two do not match the source on update in place:
  - `_match_command` assigns `self.position` inside its loop, while `MatchCommand` sets `position` once after `FindPrefix` returns.
  - `_extract_string_literals` appends to `self.tokens` inside its loop, while `ExtractStringLiterals` appends the list `ScanLiterals` built in one step.
  - No caller can see the intermediate states, so the final fields are the same.
