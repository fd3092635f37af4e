/** The fonts of the dialog and the pure operations on the installed-font list
    (src/fonts.js).  An absent string field of a stored record is modelled as "",
    which every `||` and `===` in the source treats the same way as `undefined`;
    `name` and `variants` are optional because the source tells absence apart there. */
module FontModel {

  import opened Wrappers
  import opened Seqs

  /** A font of the remote catalog: its family, its category and the variant tokens it offers. */
  datatype CatalogFont = CatalogFont(family: string, category: string, variants: seq<string>)

  /** An installed font as the host document holds it before the dialog loads it. */
  datatype StoredFont = StoredFont(
    family: string, name: Option<string>, category: string,
    variants: Option<seq<string>>, value: string)

  /** An installed font as the dialog holds it: `variants` are the selected tokens,
      `value` the CSS `font-family` value offered in the style editor. */
  datatype InstalledFont = InstalledFont(
    family: string, name: Option<string>, category: string,
    variants: seq<string>, value: string)

  /** The first catalog entry of the given family (`_fontsList.find(f => f.family === family)`). */
  function FindCatalog(catalog: seq<CatalogFont>, family: string): (r: Option<CatalogFont>)
    ensures r.Some? ==> r.value in catalog && r.value.family == family
    ensures r.Some? ==> exists i :: (0 <= i < |catalog| && catalog[i] == r.value
      && forall j :: 0 <= j < i ==> catalog[j].family != family)
    ensures r.None? <==> forall i :: 0 <= i < |catalog| ==> catalog[i].family != family
  {
    if catalog == [] then None
    else if catalog[0].family == family then Some(catalog[0])
    else
      var r := FindCatalog(catalog[1..], family);
      assert r.Some? ==> exists i :: (0 <= i < |catalog| && catalog[i] == r.value
        && forall j :: 0 <= j < i ==> catalog[j].family != family) by {
        if r.Some? {
          var i :| 0 <= i < |catalog[1..]| && catalog[1..][i] == r.value
            && forall j :: 0 <= j < i ==> catalog[1..][j].family != family;
          assert catalog[i + 1] == r.value;
          assert forall j :: 0 <= j < i + 1 ==> catalog[j].family != family by {
            forall j | 0 <= j < i + 1 ensures catalog[j].family != family {
              if j > 0 { assert catalog[j] == catalog[1..][j - 1]; }
            }
          }
        }
      }
      r
  }

  /** The variants the catalog offers for a family, or none when the family is unknown
      (`(_fontsList.find(...)?.variants) || []`). */
  function CatalogVariants(catalog: seq<CatalogFont>, family: string): seq<string> {
    match FindCatalog(catalog, family)
    case Some(c) => c.variants
    case None => []
  }

  // ----- load-time normalisation (loadFonts) -----

  /** A stored record as the dialog holds it: a missing variant list becomes empty. */
  function Normalise(f: StoredFont): InstalledFont {
    InstalledFont(f.family, f.name, f.category, f.variants.GetOr([]), f.value)
  }

  /** `(stored || []).map(f => ({...f, variants: f.variants || []}))`. */
  function Normalised(stored: seq<StoredFont>): (r: seq<InstalledFont>)
    ensures |r| == |stored|
    ensures forall i :: 0 <= i < |r| ==>
      && r[i].family == stored[i].family && r[i].name == stored[i].name
      && r[i].category == stored[i].category && r[i].value == stored[i].value
      && (stored[i].variants.Some? ==> r[i].variants == stored[i].variants.value)
      && (stored[i].variants.None? ==> r[i].variants == [])
  {
    if stored == [] then [] else [Normalise(stored[0])] + Normalised(stored[1..])
  }

  /** How the dialog's list is written into the host document. */
  function Store(f: InstalledFont): StoredFont {
    StoredFont(f.family, f.name, f.category, Some(f.variants), f.value)
  }

  function StoredList(fonts: seq<InstalledFont>): (r: seq<StoredFont>)
    ensures |r| == |fonts|
    ensures forall i :: 0 <= i < |r| ==> r[i] == Store(fonts[i])
  {
    if fonts == [] then [] else [Store(fonts[0])] + StoredList(fonts[1..])
  }

  /** Saving the list into the document and loading it back gives the same list. */
  lemma {:induction false} LoadAfterSave(fonts: seq<InstalledFont>)
    ensures Normalised(StoredList(fonts)) == fonts
  {
    if fonts != [] {
      LoadAfterSave(fonts[1..]);
    }
  }

  // ----- the installed list -----

  predicate HasFamily(fonts: seq<InstalledFont>, family: string) {
    exists i :: 0 <= i < |fonts| && fonts[i].family == family
  }

  /** No two installed fonts share a family. */
  predicate UniqueFamilies(fonts: seq<InstalledFont>) {
    forall i, j :: 0 <= i < j < |fonts| ==> fonts[i].family != fonts[j].family
  }

  /** The CSS value of an installed font: the quoted family, then the category as generic family. */
  function CssValue(family: string, category: string): string {
    "\"" + family + "\", " + category
  }

  /** The record `installFont` pushes for a catalog font. */
  function FromCatalog(c: CatalogFont): InstalledFont {
    InstalledFont(c.family, Some(c.family), c.category, c.variants, CssValue(c.family, c.category))
  }

  /** `installFont`: append the catalog font unless its family is already installed. */
  function Installed(fonts: seq<InstalledFont>, c: CatalogFont): (r: seq<InstalledFont>)
    ensures fonts <= r && |r| <= |fonts| + 1
    ensures HasFamily(r, c.family)
    ensures HasFamily(fonts, c.family) <==> r == fonts
    ensures !HasFamily(fonts, c.family) ==> r == fonts + [FromCatalog(c)]
  {
    if HasFamily(fonts, c.family) then fonts
    else
      var r := fonts + [FromCatalog(c)];
      assert r[|fonts|].family == c.family;
      r
  }

  /** Installing the same font twice is installing it once. */
  lemma InstallIdempotent(fonts: seq<InstalledFont>, c: CatalogFont)
    ensures Installed(Installed(fonts, c), c) == Installed(fonts, c)
  {
  }

  /** Installing keeps families unique, and then exactly one entry has the installed family. */
  lemma InstallKeepsFamiliesUnique(fonts: seq<InstalledFont>, c: CatalogFont)
    requires UniqueFamilies(fonts)
    ensures UniqueFamilies(Installed(fonts, c))
    ensures var r := Installed(fonts, c);
      forall i, j :: (0 <= i < |r| && 0 <= j < |r| && r[i].family == c.family && r[j].family == c.family) ==> i == j
  {
  }

  /** `fonts.filter(x => x.family !== family)`. */
  function Removed(fonts: seq<InstalledFont>, family: string): seq<InstalledFont> {
    Filter(fonts, (f: InstalledFont) => f.family != family)
  }

  /** Removing a family drops every entry of that family and keeps every other entry,
      and nothing but the entries of `fonts`; an absent family leaves the list unchanged. */
  lemma RemovedSpec(fonts: seq<InstalledFont>, family: string)
    ensures !HasFamily(Removed(fonts, family), family)
    ensures forall i :: 0 <= i < |fonts| && fonts[i].family != family ==> fonts[i] in Removed(fonts, family)
    ensures forall f :: f in Removed(fonts, family) ==> f in fonts
    ensures !HasFamily(fonts, family) <==> Removed(fonts, family) == fonts
  {
    var r := Removed(fonts, family);
    assert forall i :: 0 <= i < |r| ==> r[i].family != family;
    FilterKeepsAll(fonts, (f: InstalledFont) => f.family != family);
  }

  /** Removal keeps the relative order of the kept entries: removing from a
      concatenation removes from each part. */
  lemma RemovedAppend(a: seq<InstalledFont>, b: seq<InstalledFont>, family: string)
    ensures Removed(a + b, family) == Removed(a, family) + Removed(b, family)
  {
    FilterAppend(a, b, (f: InstalledFont) => f.family != family);
  }

  /** Removal keeps families unique. */
  lemma {:induction false} RemovedKeepsFamiliesUnique(fonts: seq<InstalledFont>, family: string)
    requires UniqueFamilies(fonts)
    ensures UniqueFamilies(Removed(fonts, family))
  {
    if fonts != [] {
      RemovedKeepsFamiliesUnique(fonts[1..], family);
      var rest := Removed(fonts[1..], family);
      assert forall k :: 0 <= k < |rest| ==> rest[k].family != fonts[0].family by {
        forall k | 0 <= k < |rest| ensures rest[k].family != fonts[0].family {
          var j :| 0 <= j < |fonts[1..]| && fonts[1..][j] == rest[k];
          assert fonts[j + 1] == rest[k];
        }
      }
    }
  }

  // ----- variants of one installed font -----

  /** `variants.filter(x => x !== v)`. */
  function WithoutVariant(variants: seq<string>, v: string): seq<string> {
    Filter(variants, x => x != v)
  }

  /** The checkbox handler: select `v` when `checked`, deselect it otherwise. */
  function CheckedVariants(variants: seq<string>, v: string, checked: bool): seq<string> {
    if checked && v !in variants then variants + [v]
    else if !checked && v in variants then WithoutVariant(variants, v)
    else variants
  }

  /** Checking adds `v` exactly once when it was absent and leaves the list alone otherwise;
      unchecking removes every occurrence of `v` and keeps every other token as often as before;
      a request that already holds changes nothing. */
  lemma CheckedVariantsSpec(variants: seq<string>, v: string, checked: bool)
    ensures var r := CheckedVariants(variants, v, checked);
      && (checked ==> variants <= r && multiset(r) == multiset(variants) + (if v in variants then multiset{} else multiset{v}))
      && (!checked ==> multiset(r) == multiset(variants)[v := 0])
      && ((v in variants) == checked ==> r == variants)
  {
    if !checked {
      var r := CheckedVariants(variants, v, checked);
      forall x ensures multiset(r)[x] == multiset(variants)[v := 0][x] {
        FilterMultiset(variants, y => y != v, x);
      }
      assert multiset(r) == multiset(variants)[v := 0];
    }
  }

  /** All catalog variants are selected (`all.length && all.every(v => variants.includes(v))`). */
  predicate AllSelected(variants: seq<string>, all: seq<string>) {
    |all| > 0 && forall i :: 0 <= i < |all| ==> all[i] in variants
  }

  /** The "toggle all" button: clear when every catalog variant is selected, otherwise select them all. */
  function ToggledVariants(variants: seq<string>, all: seq<string>): seq<string> {
    if AllSelected(variants, all) then [] else all
  }

  /** Toggling selects nothing outside the catalog list; from the second press on
      it alternates between the full catalog list and nothing. */
  lemma ToggleAlternates(variants: seq<string>, all: seq<string>)
    ensures forall x :: x in ToggledVariants(variants, all) ==> x in all
    ensures |all| > 0 ==>
      ToggledVariants(ToggledVariants(variants, all), all) == if AllSelected(variants, all) then all else []
  {
    if |all| > 0 && !AllSelected(variants, all) {
      assert AllSelected(all, all);
    } else if |all| > 0 {
      assert all[0] !in [];
    }
  }

  /** With catalog variants regular, italic and 700, a full selection toggles to nothing
      and a selection of regular alone toggles to all three. */
  lemma ToggleAllExample()
    ensures ToggledVariants(["regular", "italic", "700"], ["regular", "italic", "700"]) == []
    ensures ToggledVariants(["regular"], ["regular", "italic", "700"]) == ["regular", "italic", "700"]
  {
    var all := ["regular", "italic", "700"];
    assert all[0] in all && all[1] in all && all[2] in all;
    assert "italic"[0] != "regular"[0];
    assert all[1] !in ["regular"];
  }

  /** Checking a catalog variant and toggling keep a font's selection inside its catalog list. */
  lemma VariantsStayInCatalog(variants: seq<string>, all: seq<string>, v: string, checked: bool)
    requires forall x :: x in variants ==> x in all
    requires v in all
    ensures forall x :: x in CheckedVariants(variants, v, checked) ==> x in all
    ensures forall x :: x in ToggledVariants(variants, all) ==> x in all
  {
  }
}
