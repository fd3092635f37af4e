/** The catalog panel of the dialog (`displayFontLists` and its pager buttons in
    src/fonts.js): the search-and-category filter, the sorted category list and
    the pages of ten fonts. */
module CatalogView {

  import opened Text
  import opened Seqs
  import opened FontModel

  /** `fontsPerPage`. */
  const FontsPerPage: nat := 10

  /** The filter of the catalog panel: the family contains the search text, ignoring case,
      and the category is the selected one when a category is selected. */
  predicate Shown(c: CatalogFont, query: string, category: string) {
    Match(c.family, query) && (category == "" || c.category == category)
  }

  function FilterCatalog(catalog: seq<CatalogFont>, query: string, category: string): seq<CatalogFont> {
    Filter(catalog, (c: CatalogFont) => Shown(c, query, category))
  }

  /** A catalog font is listed exactly when it is in the catalog, its family contains the
      query case-insensitively, and its category equals the selected one (if any). */
  lemma FilterCatalogSpec(catalog: seq<CatalogFont>, query: string, category: string)
    ensures forall c :: c in FilterCatalog(catalog, query, category) <==>
      c in catalog && IsSubstring(Lower(query), Lower(c.family)) && (category == "" || c.category == category)
  {
    forall c | c in catalog {
      MatchIsCaseInsensitiveSubstring(c.family, query);
    }
  }

  /** The listed fonts keep their catalog order: filtering a concatenation filters each part. */
  lemma FilterCatalogAppend(a: seq<CatalogFont>, b: seq<CatalogFont>, query: string, category: string)
    ensures FilterCatalog(a + b, query, category) == FilterCatalog(a, query, category) + FilterCatalog(b, query, category)
  {
    FilterAppend(a, b, (c: CatalogFont) => Shown(c, query, category));
  }

  /** With no search text and no category selected the whole catalog is listed. */
  lemma FilterNothingSelected(catalog: seq<CatalogFont>)
    ensures FilterCatalog(catalog, "", "") == catalog
  {
    forall i | 0 <= i < |catalog| ensures Shown(catalog[i], "", "") {
      MatchEmptyQuery(catalog[i].family);
    }
    FilterKeepsAll(catalog, (c: CatalogFont) => Shown(c, "", ""));
  }

  // ----- categories -----

  /** Every element of a strictly sorted list after a string below its head is above that string. */
  lemma BelowHead(x: string, s: seq<string>)
    requires StrictlySorted(s) && s != [] && Less(x, s[0])
    ensures forall j :: 0 <= j < |s| ==> Less(x, s[j])
  {
    forall j | 0 < j < |s| ensures Less(x, s[j]) {
      LessTransitive(x, s[0], s[j]);
    }
  }

  /** Insert `x` into a strictly sorted list unless it is already there. */
  function InsertSorted(s: seq<string>, x: string): (r: seq<string>)
    requires StrictlySorted(s)
    ensures StrictlySorted(r)
    ensures forall y :: y in r <==> y in s || y == x
  {
    if s == [] then [x]
    else if x == s[0] then s
    else if Less(x, s[0]) then
      BelowHead(x, s);
      [x] + s
    else
      LessTotal(x, s[0]);
      var rest := InsertSorted(s[1..], x);
      assert forall j :: 0 <= j < |rest| ==> Less(s[0], rest[j]) by {
        forall j | 0 <= j < |rest| ensures Less(s[0], rest[j]) {
          if rest[j] != x {
            assert rest[j] in s[1..];
            var k :| 0 <= k < |s[1..]| && s[1..][k] == rest[j];
            assert s[k + 1] == rest[j];
          }
        }
      }
      [s[0]] + rest
  }

  /** `Array.from(new Set(catalog.map(f => f.category).filter(Boolean))).sort()`:
      the distinct non-empty categories of the whole catalog, in ascending order. */
  function Categories(catalog: seq<CatalogFont>): (r: seq<string>)
    ensures StrictlySorted(r)
    ensures forall x :: x in r <==> x != "" && exists c :: c in catalog && c.category == x
  {
    if catalog == [] then []
    else
      var rest := Categories(catalog[1..]);
      assert forall c :: c in catalog <==> c == catalog[0] || c in catalog[1..];
      if catalog[0].category == "" then rest else InsertSorted(rest, catalog[0].category)
  }

  /** A strictly sorted list repeats nothing. */
  lemma SortedHasNoDuplicates(s: seq<string>)
    requires StrictlySorted(s)
    ensures NoDuplicates(s)
  {
    forall i, j | 0 <= i < j < |s| ensures s[i] != s[j] {
      if s[i] == s[j] { LessIrreflexive(s[i]); }
    }
  }

  /** Two strictly sorted lists with the same elements are the same list, so the category
      list is the one ascending listing of the catalog's non-empty categories. */
  lemma {:induction false} SortedListIsUnique(a: seq<string>, b: seq<string>)
    requires StrictlySorted(a) && StrictlySorted(b)
    requires forall x :: x in a <==> x in b
    ensures a == b
  {
    assert |a| > 0 ==> a[0] in b;
    assert |b| > 0 ==> b[0] in a;
    if a != [] && b != [] {
      var k :| 0 <= k < |b| && b[k] == a[0];
      var m :| 0 <= m < |a| && a[m] == b[0];
      if a[0] != b[0] {
        assert k > 0 && m > 0;
        LessTransitive(a[0], b[0], a[0]);
        LessIrreflexive(a[0]);
      }
      forall x ensures x in a[1..] <==> x in b[1..] {
        if x in a[1..] {
          var j :| 0 <= j < |a[1..]| && a[1..][j] == x;
          assert Less(a[0], a[j + 1]);
          LessIrreflexive(x);
          assert x in b;
        }
        if x in b[1..] {
          var j :| 0 <= j < |b[1..]| && b[1..][j] == x;
          assert Less(b[0], b[j + 1]);
          LessIrreflexive(x);
          assert x in a;
        }
      }
      SortedListIsUnique(a[1..], b[1..]);
      assert a == [a[0]] + a[1..] && b == [b[0]] + b[1..];
    }
  }

  // ----- pages -----

  /** `Math.ceil(n / fontsPerPage)`: the fewest pages of ten that hold `n` fonts. */
  function PageCount(n: nat): (r: nat)
    ensures r * FontsPerPage >= n
    ensures r > 0 ==> (r - 1) * FontsPerPage < n
  {
    (n + FontsPerPage - 1) / FontsPerPage
  }

  /** The last page index, or 0 when there are no pages (`Math.max(0, pageCount - 1)`). */
  function LastPage(pageCount: nat): nat {
    if pageCount > 0 then pageCount - 1 else 0
  }

  /** The clamp of `displayFontLists`: a page index past the last page moves to the last page. */
  function ClampPage(page: nat, pageCount: nat): (r: nat)
    ensures r <= page && r <= LastPage(pageCount)
    ensures page <= LastPage(pageCount) ==> r == page
    ensures page > LastPage(pageCount) ==> r == LastPage(pageCount)
  {
    if page >= pageCount then LastPage(pageCount) else page
  }

  function Min(a: int, b: int): int { if a <= b then a else b }

  /** `items.slice(page * fontsPerPage, (page + 1) * fontsPerPage)`. */
  function PageSlice<T>(items: seq<T>, page: nat): seq<T> {
    items[Min(page * FontsPerPage, |items|)..Min((page + 1) * FontsPerPage, |items|)]
  }

  /** A page holds at most ten fonts, is the contiguous run of the list that starts at
      `page * 10`, and is empty only past the end of the list; at a clamped index it is
      empty only when the list is. */
  lemma PageSliceSpec<T>(items: seq<T>, page: nat)
    ensures |PageSlice(items, page)| <= FontsPerPage
    ensures page * FontsPerPage <= |items| ==>
      PageSlice(items, page) == items[page * FontsPerPage..page * FontsPerPage + |PageSlice(items, page)|]
    ensures PageSlice(items, page) == [] <==> page * FontsPerPage >= |items|
    ensures page <= LastPage(PageCount(|items|)) ==> (PageSlice(items, page) == [] <==> items == [])
  {
  }

  /** The first `k` pages, one after the other. */
  function Pages<T>(items: seq<T>, k: nat): seq<T> {
    if k == 0 then [] else Pages(items, k - 1) + PageSlice(items, k - 1)
  }

  /** The first `k` pages are the first `10 * k` fonts. */
  lemma {:induction false} PagesArePrefix<T>(items: seq<T>, k: nat)
    ensures Pages(items, k) == items[..Min(k * FontsPerPage, |items|)]
  {
    if k > 0 {
      PagesArePrefix(items, k - 1);
      var a, b := Min((k - 1) * FontsPerPage, |items|), Min(k * FontsPerPage, |items|);
      assert items[..a] + items[a..b] == items[..b];
    }
  }

  /** Paging loses and repeats nothing: all pages together are the whole list. */
  lemma PagesCoverList<T>(items: seq<T>)
    ensures Pages(items, PageCount(|items|)) == items
  {
    PagesArePrefix(items, PageCount(|items|));
  }

  /** The previous-page button. */
  function PrevPage(page: nat): nat {
    if page > 0 then page - 1 else page
  }

  /** The next-page button. */
  function NextPage(page: nat, pageCount: nat): nat {
    if page < pageCount - 1 then page + 1 else page
  }

  /** Both buttons keep the page index within the pages, and each undoes the other's step. */
  lemma PagerSteps(page: nat, pageCount: nat)
    requires page <= LastPage(pageCount)
    ensures PrevPage(page) <= LastPage(pageCount) && NextPage(page, pageCount) <= LastPage(pageCount)
    ensures NextPage(page, pageCount) != page ==> PrevPage(NextPage(page, pageCount)) == page
    ensures PrevPage(page) != page ==> NextPage(PrevPage(page), pageCount) == page
  {
  }

  /** With 23 fonts listed, the third page shows the last 3; when a filter then leaves 5,
      that page index clamps to the first page, which shows all 5. */
  lemma PaginationExample<T>(items: seq<T>, fewer: seq<T>)
    requires |items| == 23 && |fewer| == 5
    ensures PageCount(|items|) == 3 && PageSlice(items, 2) == items[20..]
    ensures ClampPage(2, PageCount(|fewer|)) == 0 && PageSlice(fewer, 0) == fewer
  {
  }
}
