/**
 * The executor's session state (`theme`, `inventory`, `palette`) as a value,
 * the effect of each session command on it, and the outfit-matching reports
 * computed from it.
 */
module Session {
  import opened Wrappers
  import opened Text
  import opened Catalog
  import opened Matching
  import Parser

  /** `theme` is `None` until a theme is applied; inventory and palette hold
      lower-cased names. */
  datatype SessionState = SessionState(theme: Option<string>, inventory: set<string>, palette: seq<string>)

  /** The state of a newly built executor. */
  const Initial: SessionState := SessionState(None, {}, [])

  /** What a command reports; each case stands for one of the executor's
      messages (confirmation, warning or soft error). */
  datatype Outcome =
    | ThemeApplied(theme: string)
    | ItemAdded(item: string)
    | ItemAlreadyPresent(item: string)
    | ItemRemoved(item: string)
    | ItemNotPresent(item: string)
    | InventoryCleared
    | ItemsAdded(count: nat)
    | PaletteChanged(palette: seq<string>)
    | NoThemeSet
    | InventoryEmpty
    | NoOutfitsForTheme(theme: string)
    | Assembled(exactCount: nat)
    | AssembledPartial(nearCount: nat)
    | NoMatchesFound

  /** The hard failure of `execute`. */
  datatype ExecutionError = UnknownCommand(command: string)

  /** The state after a command, and what the command reported. */
  datatype Step = Step(session: SessionState, outcome: Outcome)

  /** `if not self.theme`: unset, or set to the empty string. */
  predicate ThemeSet(s: SessionState) {
    s.theme.Some? && s.theme.value != ""
  }

  /** Every stored name is lower-case. */
  predicate Normalized(s: SessionState) {
    && (s.theme.Some? ==> IsLower(s.theme.value))
    && (forall x :: x in s.inventory ==> IsLower(x))
    && (forall k :: 0 <= k < |s.palette| ==> IsLower(s.palette[k]))
  }

  function ApplyTheme(s: SessionState, theme: string): Step {
    Step(s.(theme := Some(Lower(theme))), ThemeApplied(theme))
  }

  function AddItem(s: SessionState, item: string): Step {
    if Lower(item) in s.inventory then Step(s, ItemAlreadyPresent(item))
    else Step(s.(inventory := s.inventory + {Lower(item)}), ItemAdded(item))
  }

  function RemoveItem(s: SessionState, item: string): Step {
    if Lower(item) !in s.inventory then Step(s, ItemNotPresent(item))
    else Step(s.(inventory := s.inventory - {Lower(item)}), ItemRemoved(item))
  }

  function ClearInventory(s: SessionState): Step {
    Step(s.(inventory := {}), InventoryCleared)
  }

  /** The inventory gains every listed item, lower-cased; the count is the
      number of names that were not there before. */
  function AddItemList(s: SessionState, items: seq<string>): Step {
    Step(s.(inventory := s.inventory + LowerSet(items)), ItemsAdded(|LowerSet(items) - s.inventory|))
  }

  function SetColorPalette(s: SessionState, colors: seq<string>): Step {
    Step(s.(palette := LowerAll(colors)), PaletteChanged(LowerAll(colors)))
  }

  /** `_assemble_cosmetic`. */
  function Assemble(s: SessionState, outfits: seq<Outfit>): Outcome {
    if !ThemeSet(s) then NoThemeSet
    else if s.inventory == {} then InventoryEmpty
    else
      var candidates := ThemeOutfits(outfits, s.theme.value);
      if candidates == [] then NoOutfitsForTheme(s.theme.value)
      else
        var exact := ExactOf(candidates, s.inventory, s.palette);
        var near := NearOf(candidates, s.inventory, s.palette);
        if exact != [] then Assembled(|exact|)
        else if near != [] then AssembledPartial(|near|)
        else NoMatchesFound
  }

  /** `get_matching_outfits`. */
  function MatchingOutfits(s: SessionState, outfits: seq<Outfit>): seq<Outfit> {
    if !ThemeSet(s) then [] else FittingOutfits(outfits, s.theme.value, s.inventory, s.palette)
  }

  /** The one-argument commands read `args[0]`; `execute` needs it there. */
  predicate ArgumentPresent(ast: Parser.Ast) {
    ast.command in {"apply theme", "add item", "remove item"} ==> |ast.arguments| >= 1
  }

  /** The command names `execute` dispatches on. */
  predicate IsSessionCommand(command: string) {
    command in {"apply theme", "add item", "remove item", "clear inventory",
                "add item list", "color palette", "assemble cosmetic"}
  }

  /** `execute`: the seven session commands; anything else is an
      `ExecutionError`. */
  function Execute(s: SessionState, outfits: seq<Outfit>, ast: Parser.Ast): Result<Step, ExecutionError>
    requires ArgumentPresent(ast)
  {
    var args := ast.arguments;
    if ast.command == "apply theme" then Ok(ApplyTheme(s, args[0]))
    else if ast.command == "add item" then Ok(AddItem(s, args[0]))
    else if ast.command == "remove item" then Ok(RemoveItem(s, args[0]))
    else if ast.command == "clear inventory" then Ok(ClearInventory(s))
    else if ast.command == "add item list" then Ok(AddItemList(s, args))
    else if ast.command == "color palette" then Ok(SetColorPalette(s, args))
    else if ast.command == "assemble cosmetic" then Ok(Step(s, Assemble(s, outfits)))
    else Err(UnknownCommand(ast.command))
  }

  // ---- properties of the session commands ----

  /** Every record the parser accepts carries the argument `execute` reads. */
  lemma ParsedHasArgument(ast: Parser.Ast)
    requires Parser.WithinArity(ast)
    ensures ArgumentPresent(ast)
  {
  }

  /** `execute` dispatches exactly the seven session commands; the other
      four phrases of the grammar (register, login, logout, exit) fail
      with `ExecutionError`. */
  lemma ExecuteDispatch(s: SessionState, outfits: seq<Outfit>, ast: Parser.Ast)
    requires ArgumentPresent(ast)
    ensures Execute(s, outfits, ast).Ok? <==> IsSessionCommand(ast.command)
    ensures Execute(s, outfits, ast).Err? ==> Execute(s, outfits, ast).error == UnknownCommand(ast.command)
    ensures ast.command in {"register", "login", "logout", "exit"} ==> Execute(s, outfits, ast).Err?
  {
  }

  /** After `add item` the inventory holds what it held and the lower-cased
      item; it reports an addition exactly when the item was not owned, and
      theme and palette are untouched. */
  lemma AddItemMembers(s: SessionState, item: string)
    ensures var st := AddItem(s, item);
      && (forall y :: y in st.session.inventory <==> y in s.inventory || y == Lower(item))
      && (st.outcome.ItemAdded? <==> Lower(item) !in s.inventory)
      && (st.outcome.ItemAdded? || st.outcome.ItemAlreadyPresent?)
      && (st.outcome.ItemAlreadyPresent? ==> st.session == s)
      && st.session.theme == s.theme && st.session.palette == s.palette
  {
  }

  /** After `remove item` the inventory holds what it held except the
      lower-cased item; it reports a removal exactly when the item was
      owned, and theme and palette are untouched. */
  lemma RemoveItemMembers(s: SessionState, item: string)
    ensures var st := RemoveItem(s, item);
      && (forall y :: y in st.session.inventory <==> y in s.inventory && y != Lower(item))
      && (st.outcome.ItemRemoved? <==> Lower(item) in s.inventory)
      && (st.outcome.ItemRemoved? || st.outcome.ItemNotPresent?)
      && (st.outcome.ItemNotPresent? ==> st.session == s)
      && st.session.theme == s.theme && st.session.palette == s.palette
  {
  }

  /** After `clear inventory` nothing is owned, so `assemble cosmetic`
      reports the empty inventory once a theme is set, and nothing but the
      inventory changed. */
  lemma ClearThenAssemble(s: SessionState, outfits: seq<Outfit>)
    requires ThemeSet(s)
    ensures var s1 := ClearInventory(s).session;
      && (forall y :: y !in s1.inventory)
      && s1.theme == s.theme && s1.palette == s.palette
      && Assemble(s1, outfits) == InventoryEmpty
  {
  }

  /** `color palette` keeps one entry per colour, in order, duplicates
      included, each lower-cased; theme and inventory are untouched. */
  lemma PaletteIsLowered(s: SessionState, colors: seq<string>)
    ensures var st := SetColorPalette(s, colors);
      && |st.session.palette| == |colors|
      && (forall k :: 0 <= k < |colors| ==>
            st.session.palette[k] == Lower(colors[k]) && IsLower(st.session.palette[k]))
      && (forall m, n :: 0 <= m < |colors| && 0 <= n < |colors| && colors[m] == colors[n] ==>
            st.session.palette[m] == st.session.palette[n])
      && st.session.theme == s.theme && st.session.inventory == s.inventory
      && st.outcome == PaletteChanged(st.session.palette)
  {
    forall k | 0 <= k < |colors| ensures IsLower(Lower(colors[k])) {
      LowerIsLower(colors[k]);
    }
  }

  /** `assemble cosmetic` leaves the session as it was. */
  lemma AssembleChangesNothing(s: SessionState, outfits: seq<Outfit>, ast: Parser.Ast)
    requires ast.command == "assemble cosmetic"
    ensures Execute(s, outfits, ast) == Ok(Step(s, Assemble(s, outfits)))
  {
  }

  /** Adding an item is case-insensitive and idempotent: adding it again,
      in any case, warns and changes nothing. */
  lemma AddItemIdempotent(s: SessionState, item: string, again: string)
    requires Lower(item) == Lower(again)
    ensures var s1 := AddItem(s, item).session;
      AddItem(s1, again) == Step(s1, ItemAlreadyPresent(again))
  {
  }

  /** Adding an absent item and removing it again, in any case, gives back
      the original session. */
  lemma AddThenRemove(s: SessionState, item: string, again: string)
    requires Lower(item) == Lower(again) && Lower(item) !in s.inventory
    ensures RemoveItem(AddItem(s, item).session, again) == Step(s, ItemRemoved(again))
  {
    assert s.inventory + {Lower(item)} - {Lower(item)} == s.inventory;
  }

  /** Removing a present item and adding it again, in any case, gives back
      the original session. */
  lemma RemoveThenAdd(s: SessionState, item: string, again: string)
    requires Lower(item) == Lower(again) && Lower(item) in s.inventory
    ensures AddItem(RemoveItem(s, item).session, again) == Step(s, ItemAdded(again))
  {
    assert s.inventory - {Lower(item)} + {Lower(item)} == s.inventory;
  }

  /** The loop of `_add_item_list` as written: `add item` on each name in
      turn, counting the ones that were added. */
  function AddEach(s: SessionState, items: seq<string>): (SessionState, nat)
    decreases |items|
  {
    if items == [] then (s, 0)
    else
      var st := AddItem(s, items[0]);
      var rest := AddEach(st.session, items[1..]);
      (rest.0, rest.1 + if st.outcome.ItemAdded? then 1 else 0)
  }

  lemma LowerSetCons(items: seq<string>)
    requires items != []
    ensures LowerSet(items) == {Lower(items[0])} + LowerSet(items[1..])
  {
    assert forall y :: y in items <==> y == items[0] || y in items[1..];
  }

  /** Adding one name first, then the others, adds the same names and
      counts the same new ones as adding them all at once. */
  lemma NewNamesStep(inventory: set<string>, x: string, rest: set<string>)
    ensures inventory + ({x} + rest) == (inventory + {x}) + rest
    ensures |({x} + rest) - inventory| == |rest - (inventory + {x})| + if x in inventory then 0 else 1
  {
    var added := rest - (inventory + {x});
    if x in inventory {
      assert ({x} + rest) - inventory == added;
    } else {
      assert ({x} + rest) - inventory == added + {x};
      assert x !in added;
    }
  }

  /** `add item list` is `add item` applied to each name in turn: same final
      session, and its count is the number of names that were added. */
  lemma {:induction false} AddItemListIsRepeatedAdd(s: SessionState, items: seq<string>)
    ensures AddEach(s, items) == (AddItemList(s, items).session, AddItemList(s, items).outcome.count)
    decreases |items|
  {
    if items != [] {
      var x, rest := Lower(items[0]), items[1..];
      var st := AddItem(s, items[0]);
      var s1 := st.session;
      assert s1 == s.(inventory := s.inventory + {x});
      AddItemListIsRepeatedAdd(s1, rest);
      LowerSetCons(items);
      NewNamesStep(s.inventory, x, LowerSet(rest));
      var bump := if st.outcome.ItemAdded? then 1 else 0;
      assert bump == if x in s.inventory then 0 else 1;
      calc {
        AddEach(s, items);
        (AddEach(s1, rest).0, AddEach(s1, rest).1 + bump);
        (s1.(inventory := s1.inventory + LowerSet(rest)), |LowerSet(rest) - s1.inventory| + bump);
        (s.(inventory := s.inventory + LowerSet(items)), |LowerSet(items) - s.inventory|);
      }
    }
  }

  /** The count `add item list` reports is how much the inventory grew, so
      names repeated in the call or already owned are not counted. */
  lemma AddItemListCount(s: SessionState, items: seq<string>)
    ensures var st := AddItemList(s, items);
      st.outcome.count == |st.session.inventory| - |s.inventory|
  {
    GrowthIsNew(s.inventory, LowerSet(items));
  }

  /** A union grows by exactly the names that were not there before. */
  lemma GrowthIsNew(a: set<string>, b: set<string>)
    ensures |a + b| - |a| == |b - a|
  {
    var n := b - a;
    assert a + b == a + n;
    assert a * n == {};
  }

  /** Every command keeps each stored name lower-case. */
  lemma ExecutePreservesNormalized(s: SessionState, outfits: seq<Outfit>, ast: Parser.Ast)
    requires ArgumentPresent(ast) && Normalized(s)
    ensures Execute(s, outfits, ast).Ok? ==> Normalized(Execute(s, outfits, ast).value.session)
  {
    var args := ast.arguments;
    if ast.command == "apply theme" {
      LowerIsLower(args[0]);
    } else if ast.command == "add item" {
      LowerIsLower(args[0]);
    } else if ast.command == "add item list" {
      LowerSetIsLower(args);
    } else if ast.command == "color palette" {
      forall k | 0 <= k < |args| ensures IsLower(LowerAll(args)[k]) {
        LowerIsLower(args[k]);
      }
    }
  }

  // ---- properties of the matching reports ----

  /** The "no matches found" report is unreachable: once the theme has
      outfits, each of them is an exact or a near match. */
  lemma AssembleNeverReportsNoMatches(s: SessionState, outfits: seq<Outfit>)
    ensures Assemble(s, outfits) != NoMatchesFound
  {
    if ThemeSet(s) && s.inventory != {} {
      ExactNearPartition(ThemeOutfits(outfits, s.theme.value), s.inventory, s.palette);
    }
  }

  /** The soft errors of `assemble cosmetic`, checked in order: no theme,
      then an empty inventory, then no outfit of the theme. Without a theme
      `get_matching_outfits` lists nothing. */
  lemma AssembleSoftErrors(s: SessionState, outfits: seq<Outfit>)
    ensures !ThemeSet(s) ==> Assemble(s, outfits) == NoThemeSet && MatchingOutfits(s, outfits) == []
    ensures ThemeSet(s) && s.inventory == {} ==> Assemble(s, outfits) == InventoryEmpty
    ensures ThemeSet(s) && s.inventory != {} && (forall o :: o in outfits ==> !OfTheme(o, s.theme.value)) ==>
      Assemble(s, outfits) == NoOutfitsForTheme(s.theme.value)
  {
    if ThemeSet(s) && s.inventory != {} && (forall o :: o in outfits ==> !OfTheme(o, s.theme.value)) {
      NoThemeOutfits(outfits, s.theme.value);
    }
  }

  /** Exact matches are reported whenever there is one, and their number is
      the length of the `get_matching_outfits` listing. */
  lemma AssembleReportsExact(s: SessionState, outfits: seq<Outfit>)
    requires ThemeSet(s) && s.inventory != {} && MatchingOutfits(s, outfits) != []
    ensures Assemble(s, outfits) == Assembled(|MatchingOutfits(s, outfits)|)
  {
    var theme := s.theme.value;
    FittingAreExact(outfits, theme, s.inventory, s.palette);
    assert MatchingOutfits(s, outfits) == OutfitsOf(ExactOf(ThemeOutfits(outfits, theme), s.inventory, s.palette));
  }

  /** When the theme has outfits but none fits, every one of them is
      reported as a near match. */
  lemma AssembleReportsNear(s: SessionState, outfits: seq<Outfit>, o: Outfit)
    requires ThemeSet(s) && s.inventory != {} && o in outfits && OfTheme(o, s.theme.value)
    requires MatchingOutfits(s, outfits) == []
    ensures Assemble(s, outfits) == AssembledPartial(|ThemeOutfits(outfits, s.theme.value)|)
  {
    var theme := s.theme.value;
    var candidates := ThemeOutfits(outfits, theme);
    assert o in candidates;
    var exact := ExactOf(candidates, s.inventory, s.palette);
    FittingAreExact(outfits, theme, s.inventory, s.palette);
    assert |OutfitsOf(exact)| == 0;
    assert exact == [];
    ExactNearPartition(candidates, s.inventory, s.palette);
    assert |NearOf(candidates, s.inventory, s.palette)| == |candidates|;
  }

  /** With a theme set, an outfit is listed by `get_matching_outfits`
      exactly when its theme matches case-insensitively, all its items are
      owned and, if a palette is set, all its colours are in it. */
  lemma MatchingOutfitsMembers(s: SessionState, outfits: seq<Outfit>, o: Outfit)
    ensures o in MatchingOutfits(s, outfits) <==>
      ThemeSet(s) && o in outfits && Lower(o.theme) == s.theme.value && Fits(o, s.inventory, s.palette)
  {
    if ThemeSet(s) {
      FittingOutfitsMembers(outfits, s.theme.value, s.inventory, s.palette);
    }
  }
}
