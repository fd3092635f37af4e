/** The state of the fonts dialog (the module variables `fonts`, `currentPage` and
    `selectedCategory` of src/fonts.js, with the text of the search box) and the
    handlers that update it.  The catalog a handler works on is passed in. */
module Session {

  import opened Wrappers
  import opened FontModel
  import opened CatalogView

  /** What the catalog panel shows after `displayFontLists`: the fonts of the current
      page, the page index and count of the pager, and the category menu. */
  datatype CatalogPanel = CatalogPanel(
    page: seq<CatalogFont>, pageIndex: nat, pageCount: nat, categories: seq<string>)

  class FontSession {
    /** The installed fonts being edited. */
    var fonts: seq<InstalledFont>
    /** The page of the catalog panel. */
    var currentPage: nat
    /** The category menu's choice; "" is "All categories". */
    var selectedCategory: string
    /** The text of the search box. */
    var searchText: string

    constructor ()
      ensures fonts == [] && currentPage == 0 && selectedCategory == "" && searchText == ""
    {
      fonts := [];
      currentPage := 0;
      selectedCategory := "";
      searchText := "";
    }

    /** No two installed fonts share a family. */
    predicate FamiliesUnique()
      reads this
    {
      UniqueFamilies(fonts)
    }

    /** The catalog fonts the panel lists under the current search and category. */
    function Listed(catalog: seq<CatalogFont>): seq<CatalogFont>
      reads this
    {
      FilterCatalog(catalog, searchText, selectedCategory)
    }

    /** The page index lies within the pages of the listed fonts (0 when there are none). */
    predicate PageInRange(catalog: seq<CatalogFont>)
      reads this
    {
      currentPage <= LastPage(PageCount(|Listed(catalog)|))
    }

    /** `loadFonts`: take the document's font list (none is an empty list), giving every
        font without variants an empty selection. */
    method LoadFonts(stored: Option<seq<StoredFont>>)
      modifies this`fonts
      ensures fonts == Normalised(stored.GetOr([]))
      ensures |fonts| == |stored.GetOr([])|
    {
      fonts := Normalised(stored.GetOr([]));
    }

    /** `installFont`: append the catalog font unless a font of its family is installed. */
    method Install(c: CatalogFont)
      modifies this`fonts
      ensures fonts == Installed(old(fonts), c)
      ensures old(fonts) <= fonts && HasFamily(fonts, c.family)
      ensures old(FamiliesUnique()) ==> FamiliesUnique()
    {
      if !HasFamily(fonts, c.family) {
        fonts := fonts + [FromCatalog(c)];
      }
      if UniqueFamilies(old(fonts)) {
        InstallKeepsFamiliesUnique(old(fonts), c);
      }
    }

    /** The remove button: drop every font of the family. */
    method Remove(family: string)
      modifies this`fonts
      ensures fonts == Removed(old(fonts), family)
      ensures !HasFamily(fonts, family)
      ensures old(FamiliesUnique()) ==> FamiliesUnique()
    {
      fonts := Removed(fonts, family);
      RemovedSpec(old(fonts), family);
      if UniqueFamilies(old(fonts)) {
        RemovedKeepsFamiliesUnique(old(fonts), family);
      }
    }

    /** The checkbox of variant `v` of font `i`: select or deselect it; every other font,
        and every other field of font `i`, stays as it was. */
    method SetVariant(i: nat, v: string, checked: bool)
      requires i < |fonts|
      modifies this`fonts
      ensures fonts == old(fonts)[i := old(fonts)[i].(variants := CheckedVariants(old(fonts)[i].variants, v, checked))]
      ensures (v in fonts[i].variants) == checked
      ensures old(FamiliesUnique()) ==> FamiliesUnique()
    {
      var font := fonts[i];
      var has := v in font.variants;
      if checked && !has {
        font := font.(variants := font.variants + [v]);
      }
      if !checked && has {
        font := font.(variants := WithoutVariant(font.variants, v));
      }
      fonts := fonts[i := font];
    }

    /** The "toggle all" button of font `i`: clear its selection when it holds every variant
        the catalog offers for its family, otherwise select exactly those. */
    method ToggleAllVariants(i: nat, catalog: seq<CatalogFont>)
      requires i < |fonts|
      modifies this`fonts
      ensures fonts == old(fonts)[i := old(fonts)[i].(variants :=
        ToggledVariants(old(fonts)[i].variants, CatalogVariants(catalog, old(fonts)[i].family)))]
      ensures forall x :: x in fonts[i].variants ==> x in CatalogVariants(catalog, fonts[i].family)
      ensures old(FamiliesUnique()) ==> FamiliesUnique()
    {
      var all := CatalogVariants(catalog, fonts[i].family);
      var isAll := |all| > 0 && forall k :: 0 <= k < |all| ==> all[k] in fonts[i].variants;
      fonts := fonts[i := fonts[i].(variants := if isAll then [] else all)];
      ToggleAlternates(old(fonts)[i].variants, all);
    }

    /** The category menu: select a category and go back to the first page. */
    method SelectCategory(category: string)
      modifies this`selectedCategory, this`currentPage
      ensures selectedCategory == category && currentPage == 0
    {
      selectedCategory := category;
      currentPage := 0;
    }

    /** Typing in the search box: go back to the first page. */
    method SetSearch(query: string)
      modifies this`searchText, this`currentPage
      ensures searchText == query && currentPage == 0
    {
      searchText := query;
      currentPage := 0;
    }

    /** The previous-page button: step back unless on the first page. */
    method PreviousPage(catalog: seq<CatalogFont>)
      modifies this`currentPage
      ensures currentPage == PrevPage(old(currentPage))
      ensures old(PageInRange(catalog)) ==> PageInRange(catalog)
    {
      if currentPage > 0 {
        currentPage := currentPage - 1;
      }
    }

    /** The next-page button: step forward unless on the last page of the listed fonts. */
    method NextPage(catalog: seq<CatalogFont>)
      modifies this`currentPage
      ensures currentPage == CatalogView.NextPage(old(currentPage), PageCount(|Listed(catalog)|))
      ensures old(PageInRange(catalog)) ==> PageInRange(catalog)
    {
      var pageCount: int := PageCount(|Listed(catalog)|);
      if currentPage < pageCount - 1 {
        currentPage := currentPage + 1;
      }
    }

    /** `displayFontLists`: filter the catalog, move a page index past the last page to the
        last page, and show that page with the pager and the category menu. */
    method DisplayFontLists(catalog: seq<CatalogFont>) returns (panel: CatalogPanel)
      modifies this`currentPage
      ensures currentPage == ClampPage(old(currentPage), PageCount(|Listed(catalog)|))
      ensures PageInRange(catalog)
      ensures panel == CatalogPanel(PageSlice(Listed(catalog), currentPage), currentPage,
        PageCount(|Listed(catalog)|), Categories(catalog))
      ensures |panel.page| <= FontsPerPage && (panel.page == [] <==> Listed(catalog) == [])
    {
      var activeFonts := FilterCatalog(catalog, searchText, selectedCategory);
      var pageCount := PageCount(|activeFonts|);
      var cats := Categories(catalog);
      if currentPage >= pageCount {
        currentPage := LastPage(pageCount);
      }
      PageSliceSpec(activeFonts, currentPage);
      panel := CatalogPanel(PageSlice(activeFonts, currentPage), currentPage, pageCount, cats);
    }
  }

  /** Opening the dialog: load the document's fonts, then show the panel before the
      catalog has arrived, which is empty and puts the pager back on page 0. */
  method OpenDialog(s: FontSession, stored: Option<seq<StoredFont>>) returns (panel: CatalogPanel)
    modifies s`fonts, s`currentPage
    ensures s.fonts == Normalised(stored.GetOr([]))
    ensures s.currentPage == 0 && panel.page == [] && panel.pageCount == 0 && panel.categories == []
  {
    s.LoadFonts(stored);
    panel := s.DisplayFontLists([]);
  }
}
