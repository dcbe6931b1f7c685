/**
 * The outfit catalogue's records (`CosmeticOutfit`, `OutfitMatch`) and the
 * reading of one catalogue entry (`CosmeticOutfit.from_dict`).
 */
module Catalog {
  import opened Wrappers

  /** One catalogue entry. */
  datatype Outfit = Outfit(
    name: string,
    theme: string,
    items: seq<string>,
    colors: seq<string>,
    image: string,
    steps: seq<string>)

  /** A catalogue entry as decoded from the document: any field may be
      absent. */
  datatype OutfitDoc = OutfitDoc(
    name: Option<string>,
    theme: Option<string>,
    items: Option<seq<string>>,
    colors: Option<seq<string>>,
    image: Option<string>,
    steps: Option<seq<string>>)

  /** How one outfit classifies against the session: what it still lacks. */
  datatype OutfitMatch = OutfitMatch(outfit: Outfit, missingItems: set<string>, missingColors: set<string>)

  function GetOr<T>(o: Option<T>, default: T): T {
    match o
    case Some(v) => v
    case None => default
  }

  /** `from_dict`: every absent field becomes the empty string or list. */
  function FromDict(d: OutfitDoc): Outfit {
    Outfit(
      GetOr(d.name, ""), GetOr(d.theme, ""), GetOr(d.items, []),
      GetOr(d.colors, []), GetOr(d.image, ""), GetOr(d.steps, []))
  }

  /** The document entry that spells out every field of an outfit. */
  function ToDict(o: Outfit): OutfitDoc {
    OutfitDoc(Some(o.name), Some(o.theme), Some(o.items), Some(o.colors), Some(o.image), Some(o.steps))
  }

  /** Reading back a fully spelled-out entry gives the outfit itself. */
  lemma FromDictRoundTrip(o: Outfit)
    ensures FromDict(ToDict(o)) == o
  {
  }

  /** Each absent field reads as the empty string or the empty list,
      whatever the other fields are. */
  lemma FromDictDefaults(d: OutfitDoc)
    ensures d.name.None? ==> FromDict(d).name == ""
    ensures d.theme.None? ==> FromDict(d).theme == ""
    ensures d.items.None? ==> FromDict(d).items == []
    ensures d.colors.None? ==> FromDict(d).colors == []
    ensures d.image.None? ==> FromDict(d).image == ""
    ensures d.steps.None? ==> FromDict(d).steps == []
  {
  }

  /** Each present field reads as its value, whatever the other fields are. */
  lemma FromDictPresent(d: OutfitDoc)
    ensures d.name.Some? ==> FromDict(d).name == d.name.value
    ensures d.theme.Some? ==> FromDict(d).theme == d.theme.value
    ensures d.items.Some? ==> FromDict(d).items == d.items.value
    ensures d.colors.Some? ==> FromDict(d).colors == d.colors.value
    ensures d.image.Some? ==> FromDict(d).image == d.image.value
    ensures d.steps.Some? ==> FromDict(d).steps == d.steps.value
  {
  }
}
