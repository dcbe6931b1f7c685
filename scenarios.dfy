/**
 * Worked examples of the interpreter on concrete input: case-insensitive
 * inventory names, quoting, and the exact/near reports of `assemble
 * cosmetic` for a one-outfit catalogue.
 */
module Scenarios {
  import opened Wrappers
  import opened Text
  import opened Tokenizer
  import opened Catalog
  import opened Matching
  import opened Session

  /** Adding "Jacket" stores "jacket"; adding "jacket" afterwards is
      reported as already present and changes nothing. */
  lemma JacketTwice()
    ensures AddItem(Initial, "Jacket") == Step(SessionState(None, {"jacket"}, []), ItemAdded("Jacket"))
    ensures AddItem(AddItem(Initial, "Jacket").session, "jacket") ==
      Step(SessionState(None, {"jacket"}, []), ItemAlreadyPresent("jacket"))
  {
    assert Lower("Jacket") == "jacket";
    assert Lower("jacket") == "jacket";
  }

  /** One closed pair of quotes gives one literal. */
  lemma OneLiteral()
    ensures Literals("\"a\"") == ["a"]
  {
    var t := "\"a\"";
    assert QuoteFrom(t, 1) == 2;
    assert LiteralsFrom(t, 3) == [];
    assert t[1..2] == "a";
  }

  /** A quote that is never closed is dropped together with what follows. */
  lemma UnclosedQuoteDropped()
    ensures Literals("\"a\" \"b") == ["a"]
  {
    var t := "\"a\" \"b";
    assert QuoteFrom(t, 1) == 2;
    assert QuoteFrom(t, 5) == 6;
    assert LiteralsFrom(t, 4) == [];
    assert LiteralsFrom(t, 3) == [];
    assert t[1..2] == "a";
  }

  /** One outfit of the session's theme is reported as an exact match when
      it fits and as a near match otherwise. */
  lemma SingleOutfit(s: SessionState, o: Outfit)
    requires ThemeSet(s) && s.inventory != {} && OfTheme(o, s.theme.value)
    ensures Assemble(s, [o]) == if Fits(o, s.inventory, s.palette) then Assembled(1) else AssembledPartial(1)
  {
    var os := [o];
    assert os[..0] == [];
    assert ThemeOutfits(os, s.theme.value) == os;
    ExactIffFits(o, s.inventory, s.palette);
    var m := Classify(o, s.inventory, s.palette);
    assert ExactOf(os, s.inventory, s.palette) == (if IsExact(m) then [m] else []);
    assert NearOf(os, s.inventory, s.palette) == (if IsExact(m) then [] else [m]);
  }

  const Neon := Outfit("Neon Runner", "Cyberpunk", ["Jacket", "Boots"], ["Black"], "neon.png", [])

  lemma NeonFacts()
    ensures OfTheme(Neon, "cyberpunk")
    ensures !Fits(Neon, {"jacket"}, [])
    ensures Fits(Neon, {"jacket", "boots"}, [])
  {
    assert Lower("Cyberpunk") == "cyberpunk";
    assert Lower("Jacket") == "jacket";
    assert Lower("Boots") == "boots";
    assert "Boots" in Neon.items;
  }

  /** With the theme "cyberpunk" and only a jacket the outfit is a near
      match; once boots are added it is an exact match. */
  lemma PartialThenExact()
    ensures Assemble(SessionState(Some("cyberpunk"), {"jacket"}, []), [Neon]) == AssembledPartial(1)
    ensures Assemble(SessionState(Some("cyberpunk"), {"jacket", "boots"}, []), [Neon]) == Assembled(1)
  {
    NeonFacts();
    SingleOutfit(SessionState(Some("cyberpunk"), {"jacket"}, []), Neon);
    SingleOutfit(SessionState(Some("cyberpunk"), {"jacket", "boots"}, []), Neon);
  }

  const Street := Outfit("Street", "cyberpunk", ["jacket", "boots"], ["neon blue"], "street.png", [])

  /** A session owning both items of the one outfit, with its colour as the
      palette: one exact match, and that outfit is the listing. */
  lemma ExactWithPalette()
    ensures var s := SessionState(Some("cyberpunk"), {"jacket", "boots"}, ["neon blue"]);
      Assemble(s, [Street]) == Assembled(1) && MatchingOutfits(s, [Street]) == [Street]
  {
    var s := SessionState(Some("cyberpunk"), {"jacket", "boots"}, ["neon blue"]);
    NoUpperIsLower("cyberpunk");
    NoUpperIsLower("jacket");
    NoUpperIsLower("boots");
    NoUpperIsLower("neon blue");
    assert Fits(Street, s.inventory, s.palette);
    SingleOutfit(s, Street);
    var os := [Street];
    assert os[..0] == [];
    assert FittingOutfits(os, "cyberpunk", s.inventory, s.palette) == [Street];
  }
}
