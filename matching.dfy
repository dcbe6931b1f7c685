/**
 * The set algebra of outfit matching: what an outfit lacks against an
 * inventory and a palette, the split of a theme's outfits into exact and
 * near matches (`_assemble_cosmetic`), and the list of fitting outfits
 * (`get_matching_outfits`).
 */
module Matching {
  import opened Text
  import opened Catalog

  /** `set(palette)`. */
  function PaletteSet(palette: seq<string>): set<string> {
    set c | c in palette
  }

  /** `items_set - inv`. */
  function MissingItems(o: Outfit, inventory: set<string>): set<string> {
    LowerSet(o.items) - inventory
  }

  /** `colors_set - pal`, where an empty palette puts no constraint. */
  function MissingColors(o: Outfit, palette: seq<string>): set<string> {
    if palette == [] then {} else LowerSet(o.colors) - PaletteSet(palette)
  }

  function Classify(o: Outfit, inventory: set<string>, palette: seq<string>): OutfitMatch {
    OutfitMatch(o, MissingItems(o, inventory), MissingColors(o, palette))
  }

  predicate IsExact(m: OutfitMatch) {
    m.missingItems == {} && m.missingColors == {}
  }

  /** The outfit's items are all owned and, when a palette is set, its
      colours are all in the palette (case-insensitively). */
  predicate Fits(o: Outfit, inventory: set<string>, palette: seq<string>) {
    && (forall x :: x in o.items ==> Lower(x) in inventory)
    && (palette != [] ==> forall c :: c in o.colors ==> Lower(c) in palette)
  }

  /** An outfit classifies as exact exactly when it fits. */
  lemma ExactIffFits(o: Outfit, inventory: set<string>, palette: seq<string>)
    ensures IsExact(Classify(o, inventory, palette)) <==> Fits(o, inventory, palette)
  {
    if IsExact(Classify(o, inventory, palette)) {
      forall x | x in o.items ensures Lower(x) in inventory {
        assert Lower(x) in LowerSet(o.items);
        assert Lower(x) !in MissingItems(o, inventory);
      }
      if palette != [] {
        forall c | c in o.colors ensures Lower(c) in palette {
          assert Lower(c) in LowerSet(o.colors);
          assert Lower(c) !in MissingColors(o, palette);
        }
      }
    }
  }

  /** Colour matching looks at the palette as a set: reordering or
      repeating palette entries changes nothing. */
  lemma MissingColorsIgnoresOrder(o: Outfit, p: seq<string>, q: seq<string>)
    requires p != [] && q != []
    requires forall c :: c in p <==> c in q
    ensures MissingColors(o, p) == MissingColors(o, q)
  {
    assert PaletteSet(p) == PaletteSet(q);
  }

  /** The outfit's theme, lower-cased, is the session theme. */
  predicate OfTheme(o: Outfit, theme: string) {
    Lower(o.theme) == theme
  }

  /** `theme_outfits`: the outfits of the theme, in catalogue order. */
  function ThemeOutfits(os: seq<Outfit>, theme: string): (r: seq<Outfit>)
    ensures |r| <= |os|
    ensures forall o :: o in r <==> o in os && OfTheme(o, theme)
  {
    if os == [] then []
    else
      var init, last := os[..|os| - 1], os[|os| - 1];
      assert os == init + [last];
      ThemeOutfits(init, theme) + (if OfTheme(last, theme) then [last] else [])
  }

  /** The filter keeps catalogue order and repeats: filtering a catalogue
      made of two parts filters the first part, then the second. */
  lemma {:induction false} ThemeOutfitsAppend(a: seq<Outfit>, b: seq<Outfit>, theme: string)
    ensures ThemeOutfits(a + b, theme) == ThemeOutfits(a, theme) + ThemeOutfits(b, theme)
    decreases |b|
  {
    if b == [] {
      assert a + b == a;
    } else {
      var init := b[..|b| - 1];
      assert (a + b)[..|a + b| - 1] == a + init;
      assert (a + b)[|a + b| - 1] == b[|b| - 1];
      ThemeOutfitsAppend(a, init, theme);
    }
  }

  /** A one-outfit catalogue keeps its outfit exactly when it has the theme. */
  lemma ThemeOutfitsSingle(o: Outfit, theme: string)
    ensures ThemeOutfits([o], theme) == if OfTheme(o, theme) then [o] else []
  {
    assert [o][..0] == [];
  }

  /** A catalogue without an outfit of the theme has no theme outfits. */
  lemma {:induction false} NoThemeOutfits(os: seq<Outfit>, theme: string)
    requires forall o :: o in os ==> !OfTheme(o, theme)
    ensures ThemeOutfits(os, theme) == []
  {
    if os != [] {
      var init := os[..|os| - 1];
      assert forall o :: o in init ==> o in os;
      NoThemeOutfits(init, theme);
      assert os[|os| - 1] in os;
    }
  }

  /** `exact`: the exact matches among `os`, in order. */
  function ExactOf(os: seq<Outfit>, inventory: set<string>, palette: seq<string>): seq<OutfitMatch> {
    if os == [] then []
    else
      var m := Classify(os[|os| - 1], inventory, palette);
      ExactOf(os[..|os| - 1], inventory, palette) + (if IsExact(m) then [m] else [])
  }

  /** `near`: the other outfits of `os`, in order, with what each lacks. */
  function NearOf(os: seq<Outfit>, inventory: set<string>, palette: seq<string>): seq<OutfitMatch> {
    if os == [] then []
    else
      var m := Classify(os[|os| - 1], inventory, palette);
      NearOf(os[..|os| - 1], inventory, palette) + (if IsExact(m) then [] else [m])
  }

  /** Together the two lists are as long as `os`: each outfit adds one
      entry to one of them. */
  lemma {:induction false} ExactNearPartition(os: seq<Outfit>, inventory: set<string>, palette: seq<string>)
    ensures |ExactOf(os, inventory, palette)| + |NearOf(os, inventory, palette)| == |os|
  {
    if os != [] {
      ExactNearPartition(os[..|os| - 1], inventory, palette);
    }
  }

  /** The outfits behind a list of matches. */
  function OutfitsOf(ms: seq<OutfitMatch>): (r: seq<Outfit>)
    ensures |r| == |ms|
    ensures forall k :: 0 <= k < |ms| ==> r[k] == ms[k].outfit
  {
    if ms == [] then [] else OutfitsOf(ms[..|ms| - 1]) + [ms[|ms| - 1].outfit]
  }

  /** The loop of `get_matching_outfits` over the catalogue: the outfits of
      the theme that fit, in catalogue order. */
  function FittingOutfits(os: seq<Outfit>, theme: string, inventory: set<string>, palette: seq<string>): seq<Outfit> {
    if os == [] then []
    else
      var o := os[|os| - 1];
      FittingOutfits(os[..|os| - 1], theme, inventory, palette)
        + (if OfTheme(o, theme) && Fits(o, inventory, palette) then [o] else [])
  }

  /** An outfit is listed exactly when it is in the catalogue, has the theme
      and fits. */
  lemma {:induction false} FittingOutfitsMembers(os: seq<Outfit>, theme: string, inventory: set<string>, palette: seq<string>)
    ensures forall o :: o in FittingOutfits(os, theme, inventory, palette) <==>
      o in os && OfTheme(o, theme) && Fits(o, inventory, palette)
  {
    if os != [] {
      var init := os[..|os| - 1];
      assert os == init + [os[|os| - 1]];
      FittingOutfitsMembers(init, theme, inventory, palette);
    }
  }

  /** The listing keeps catalogue order: listing a catalogue made of two
      parts lists the first part's outfits, then the second's. */
  lemma {:induction false} FittingOutfitsAppend(a: seq<Outfit>, b: seq<Outfit>, theme: string, inventory: set<string>, palette: seq<string>)
    ensures FittingOutfits(a + b, theme, inventory, palette) ==
      FittingOutfits(a, theme, inventory, palette) + FittingOutfits(b, theme, inventory, palette)
    decreases |b|
  {
    if b == [] {
      assert a + b == a;
    } else {
      var init := b[..|b| - 1];
      assert (a + b)[..|a + b| - 1] == a + init;
      assert (a + b)[|a + b| - 1] == b[|b| - 1];
      FittingOutfitsAppend(a, init, theme, inventory, palette);
    }
  }

  /** The listing is the outfits of the exact matches among the theme's
      outfits, in the same order. */
  lemma {:induction false} FittingAreExact(os: seq<Outfit>, theme: string, inventory: set<string>, palette: seq<string>)
    ensures FittingOutfits(os, theme, inventory, palette) ==
      OutfitsOf(ExactOf(ThemeOutfits(os, theme), inventory, palette))
  {
    if os != [] {
      var init, o := os[..|os| - 1], os[|os| - 1];
      FittingAreExact(init, theme, inventory, palette);
      ExactIffFits(o, inventory, palette);
      var t := ThemeOutfits(init, theme);
      if OfTheme(o, theme) {
        var t' := t + [o];
        assert ThemeOutfits(os, theme) == t';
        assert t'[..|t'| - 1] == t;
        var e := ExactOf(t, inventory, palette);
        var m := Classify(o, inventory, palette);
        if IsExact(m) {
          assert OutfitsOf(e + [m])[..|e|] == OutfitsOf(e);
        }
      } else {
        assert ThemeOutfits(os, theme) == t;
      }
    }
  }
}
