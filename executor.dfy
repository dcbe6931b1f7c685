/**
 * `CosmeticsExecutor`: owns the session state as fields, applies one parsed
 * command at a time and runs the outfit matching over its catalogue.
 */
module Executor {
  import opened Wrappers
  import opened Text
  import opened Catalog
  import opened Matching
  import opened Session
  import Parser

  /** The loop of `_assemble_cosmetic` over the theme's outfits: each is
      classified and appended to `exact` or to `near`. */
  method ClassifyOutfits(candidates: seq<Outfit>, inventory: set<string>, palette: seq<string>)
    returns (exact: seq<OutfitMatch>, near: seq<OutfitMatch>)
    ensures exact == ExactOf(candidates, inventory, palette)
    ensures near == NearOf(candidates, inventory, palette)
  {
    exact, near := [], [];
    var k := 0;
    while k < |candidates|
      invariant 0 <= k <= |candidates|
      invariant exact == ExactOf(candidates[..k], inventory, palette)
      invariant near == NearOf(candidates[..k], inventory, palette)
    {
      var o := candidates[k];
      assert candidates[..k + 1][..k] == candidates[..k];
      var missingItems := LowerSet(o.items) - inventory;
      var missingColors := if palette == [] then {} else LowerSet(o.colors) - PaletteSet(palette);
      if missingItems == {} && missingColors == {} {
        exact := exact + [OutfitMatch(o, missingItems, missingColors)];
      } else {
        near := near + [OutfitMatch(o, missingItems, missingColors)];
      }
      k := k + 1;
    }
    assert candidates[..k] == candidates;
  }

  /** The loop of `get_matching_outfits` over the catalogue: outfits of
      another theme, with a missing item, or (when a palette is set) with a
      colour outside it are skipped. */
  method SelectFitting(outfits: seq<Outfit>, theme: string, inventory: set<string>, palette: seq<string>)
    returns (matches: seq<Outfit>)
    ensures matches == FittingOutfits(outfits, theme, inventory, palette)
  {
    matches := [];
    var k := 0;
    while k < |outfits|
      invariant 0 <= k <= |outfits|
      invariant matches == FittingOutfits(outfits[..k], theme, inventory, palette)
    {
      var o := outfits[k];
      assert outfits[..k + 1][..k] == outfits[..k];
      k := k + 1;
      if Lower(o.theme) != theme {
        continue;
      }
      if LowerSet(o.items) - inventory != {} {
        assert !Fits(o, inventory, palette) by { ExactIffFits(o, inventory, palette); }
        continue;
      }
      if palette != [] && LowerSet(o.colors) - PaletteSet(palette) != {} {
        assert !Fits(o, inventory, palette) by { ExactIffFits(o, inventory, palette); }
        continue;
      }
      ExactIffFits(o, inventory, palette);
      matches := matches + [o];
    }
    assert outfits[..k] == outfits;
  }

  class CosmeticsExecutor {
    const outfits: seq<Outfit>
    var theme: Option<string>
    var inventory: set<string>
    var palette: seq<string>

    /** The session the fields hold. */
    function State(): SessionState
      reads this
    {
      SessionState(theme, inventory, palette)
    }

    /** Reads every catalogue entry with `from_dict`, keeping their order,
        and starts with no theme, no items and no palette. */
    constructor (library: seq<OutfitDoc>)
      ensures |outfits| == |library|
      ensures forall k :: 0 <= k < |library| ==> outfits[k] == FromDict(library[k])
      ensures State() == Initial
    {
      outfits := seq(|library|, k requires 0 <= k < |library| => FromDict(library[k]));
      theme := None;
      inventory := {};
      palette := [];
    }

    /** Applies one command record: the new state and the report are those
        of `Session.Execute`; an unknown command changes nothing. */
    method Execute(ast: Parser.Ast) returns (r: Result<Outcome, ExecutionError>)
      requires ArgumentPresent(ast)
      modifies this
      ensures r == match Session.Execute(old(State()), outfits, ast)
                   case Ok(st) => Ok(st.outcome)
                   case Err(e) => Err(e)
      ensures State() == match Session.Execute(old(State()), outfits, ast)
                         case Ok(st) => st.session
                         case Err(_) => old(State())
    {
      var cmd, args := ast.command, ast.arguments;
      var outcome: Outcome;
      if cmd == "apply theme" {
        outcome := ApplyTheme(args[0]);
      } else if cmd == "add item" {
        outcome := AddItem(args[0]);
      } else if cmd == "remove item" {
        outcome := RemoveItem(args[0]);
      } else if cmd == "clear inventory" {
        outcome := ClearInventory();
      } else if cmd == "add item list" {
        outcome := AddItemList(args);
      } else if cmd == "color palette" {
        outcome := SetColorPalette(args);
      } else if cmd == "assemble cosmetic" {
        outcome := AssembleCosmetic();
      } else {
        return Err(UnknownCommand(cmd));
      }
      return Ok(outcome);
    }

    method ApplyTheme(t: string) returns (r: Outcome)
      modifies this`theme
      ensures theme == Some(Lower(t)) && r == ThemeApplied(t)
    {
      theme := Some(Lower(t));
      r := ThemeApplied(t);
    }

    /** Warns, and changes nothing, when the lower-cased item is owned. */
    method AddItem(item: string) returns (r: Outcome)
      modifies this`inventory
      ensures Lower(item) in old(inventory) ==> inventory == old(inventory) && r == ItemAlreadyPresent(item)
      ensures Lower(item) !in old(inventory) ==> inventory == old(inventory) + {Lower(item)} && r == ItemAdded(item)
    {
      var itemLower := Lower(item);
      if itemLower in inventory {
        return ItemAlreadyPresent(item);
      }
      inventory := inventory + {itemLower};
      return ItemAdded(item);
    }

    /** Warns, and changes nothing, when the lower-cased item is not owned. */
    method RemoveItem(item: string) returns (r: Outcome)
      modifies this`inventory
      ensures Lower(item) !in old(inventory) ==> inventory == old(inventory) && r == ItemNotPresent(item)
      ensures Lower(item) in old(inventory) ==> inventory == old(inventory) - {Lower(item)} && r == ItemRemoved(item)
    {
      var itemLower := Lower(item);
      if itemLower !in inventory {
        return ItemNotPresent(item);
      }
      inventory := inventory - {itemLower};
      return ItemRemoved(item);
    }

    method ClearInventory() returns (r: Outcome)
      modifies this`inventory
      ensures inventory == {} && r == InventoryCleared
    {
      inventory := {};
      r := InventoryCleared;
    }

    /** Adds each name not yet owned, counting the additions. */
    method AddItemList(items: seq<string>) returns (r: Outcome)
      modifies this`inventory
      ensures inventory == old(inventory) + LowerSet(items)
      ensures r.ItemsAdded? && r.count == |inventory| - |old(inventory)|
      ensures r == ItemsAdded(|LowerSet(items) - old(inventory)|)
    {
      ghost var before := inventory;
      ghost var seen: set<string> := {};
      var added := 0;
      var k := 0;
      while k < |items|
        invariant 0 <= k <= |items|
        invariant seen == LowerSet(items[..k])
        invariant inventory == before + seen
        invariant added == |inventory| - |before|
      {
        var it := items[k];
        LowerSetSnoc(items, k);
        if Lower(it) !in inventory {
          inventory := inventory + {Lower(it)};
          added := added + 1;
        }
        seen := seen + {Lower(it)};
        k := k + 1;
      }
      assert items[..k] == items;
      GrowthIsNew(before, seen);
      return ItemsAdded(added);
    }

    /** The palette becomes the lower-cased colours, in order. */
    method SetColorPalette(colors: seq<string>) returns (r: Outcome)
      modifies this`palette
      ensures palette == LowerAll(colors) && r == PaletteChanged(palette)
    {
      palette := LowerAll(colors);
      r := PaletteChanged(palette);
    }

    /** Reports on the matching; reads the state and changes nothing. */
    method AssembleCosmetic() returns (r: Outcome)
      ensures r == Assemble(State(), outfits)
    {
      if theme.None? || theme.value == "" {
        return NoThemeSet;
      }
      if inventory == {} {
        return InventoryEmpty;
      }
      var candidates := ThemeOutfits(outfits, theme.value);
      if candidates == [] {
        return NoOutfitsForTheme(theme.value);
      }
      var exact, near := ClassifyOutfits(candidates, inventory, palette);
      if exact != [] {
        return Assembled(|exact|);
      }
      if near != [] {
        return AssembledPartial(|near|);
      }
      return NoMatchesFound;
    }

    /** The outfits to display, in catalogue order; changes nothing. */
    method GetMatchingOutfits() returns (r: seq<Outfit>)
      ensures r == MatchingOutfits(State(), outfits)
    {
      if theme.None? || theme.value == "" {
        return [];
      }
      r := SelectFitting(outfits, theme.value, inventory, palette);
    }
  }
}
