/** The stylesheet links the dialog injects into the edited page's head
    (`getHtml` in src/fonts.js), as the source's string and as a list of link
    descriptors that the string is proved to render. */
module Markup {

  import opened Wrappers
  import opened Text
  import opened FontModel

  /** The default `fontServer`; the plugin's `server_url` option replaces it. */
  const DefaultFontServer: string := "https://fonts.googleapis.com"

  /** `GOOGLE_FONTS_ATTR`: the attribute `updateHead` tags its links with, to find them again. */
  const MarkerAttribute: string := "data-silex-gstatic"

  /** The two preconnect links `getHtml` emits before the stylesheets of a non-empty list. */
  function Preconnect(server: string, attr: string): string {
    "<link href=\"" + server + "\" rel=\"preconnect\" " + attr + ">"
    + "<link href=\"" + (server + "/css2") + "\" rel=\"preconnect\" crossorigin " + attr + ">"
  }

  /** The URL of the stylesheet of one family: spaces of the name become `+`. */
  function StylesheetHref(server: string, name: string): string {
    server + "/css2?family=" + SpaceToPlus(name) + "&display=swap"
  }

  /** `fonts.map(f => '<link href=...>').join('')`; reading `f.name.replace` of a font
      without a name throws, which is `Failure` with the position of that font. */
  function StylesheetLinks(server: string, fonts: seq<InstalledFont>, attr: string): Result<string, nat>
  {
    if fonts == [] then Success("")
    else match fonts[0].name
      case None => Failure(0)
      case Some(name) =>
        var link := "<link href=\"" + StylesheetHref(server, name) + "\" rel=\"stylesheet\" " + attr + ">";
        match StylesheetLinks(server, fonts[1..], attr)
        case Success(rest) => Success(link + rest)
        case Failure(k) => Failure(k + 1)
  }

  /** `getHtml(fonts, attr)`: nothing for an empty list; otherwise the preconnect links,
      then one stylesheet link per font. */
  function GetHtml(server: string, fonts: seq<InstalledFont>, attr: string): Result<string, nat> {
    var preconnect := if |fonts| > 0 then Preconnect(server, attr) else "";
    match StylesheetLinks(server, fonts, attr)
    case Success(links) => Success(preconnect + links)
    case Failure(k) => Failure(k)
  }

  // ----- the same markup as link descriptors -----

  /** One `<link>` element: where it points, its `rel`, and whether it is `crossorigin`. */
  datatype LinkTag = LinkTag(href: string, rel: string, crossorigin: bool)

  /** A descriptor written out as an element carrying the attribute `attr`. */
  function Render(t: LinkTag, attr: string): string {
    "<link href=\"" + t.href + RelPart(t) + attr + ">"
  }

  /** What follows the URL of a descriptor: its `rel`, then `crossorigin` when set. */
  function RelPart(t: LinkTag): string {
    "\" rel=\"" + t.rel + "\"" + (if t.crossorigin then " crossorigin" else "") + " "
  }

  function RenderAll(tags: seq<LinkTag>, attr: string): string {
    if tags == [] then "" else Render(tags[0], attr) + RenderAll(tags[1..], attr)
  }

  /** One stylesheet descriptor per font, in list order; `Failure(k)` when font `k` is the
      first one without a name. */
  function StylesheetTags(server: string, fonts: seq<InstalledFont>): (r: Result<seq<LinkTag>, nat>)
    ensures r.Success? <==> forall i :: 0 <= i < |fonts| ==> fonts[i].name.Some?
    ensures r.Success? ==> |r.value| == |fonts| && forall i :: 0 <= i < |fonts| ==>
      r.value[i] == LinkTag(StylesheetHref(server, fonts[i].name.value), "stylesheet", false)
    ensures r.Failure? ==> (r.error < |fonts| && fonts[r.error].name.None?
      && forall i :: 0 <= i < r.error ==> fonts[i].name.Some?)
  {
    if fonts == [] then Success([])
    else match fonts[0].name
      case None => Failure(0)
      case Some(name) =>
        match StylesheetTags(server, fonts[1..])
        case Success(rest) => Success([LinkTag(StylesheetHref(server, name), "stylesheet", false)] + rest)
        case Failure(k) => Failure(k + 1)
  }

  /** The descriptors of the head markup: none for an empty list, else the two preconnect
      links (the second one `crossorigin`) followed by the stylesheets. */
  function LinkTags(server: string, fonts: seq<InstalledFont>): (r: Result<seq<LinkTag>, nat>)
    ensures fonts == [] ==> r == Success([])
    ensures r.Success? <==> StylesheetTags(server, fonts).Success?
    ensures r.Failure? ==> r.error == StylesheetTags(server, fonts).error
    ensures r.Success? && fonts != [] ==> (|r.value| == |fonts| + 2
      && r.value[0] == LinkTag(server, "preconnect", false)
      && r.value[1] == LinkTag(server + "/css2", "preconnect", true)
      && r.value[2..] == StylesheetTags(server, fonts).value)
  {
    if fonts == [] then Success([])
    else match StylesheetTags(server, fonts)
      case Success(tags) =>
        Success([LinkTag(server, "preconnect", false), LinkTag(server + "/css2", "preconnect", true)] + tags)
      case Failure(k) => Failure(k)
  }

  /** A stylesheet descriptor writes out the source's literal stylesheet link. */
  lemma RenderStylesheet(href: string, attr: string)
    ensures Render(LinkTag(href, "stylesheet", false), attr)
      == "<link href=\"" + href + "\" rel=\"stylesheet\" " + attr + ">"
  {
    assert RelPart(LinkTag(href, "stylesheet", false)) == "\" rel=\"stylesheet\" ";
  }

  /** The two preconnect descriptors write out the source's literal preconnect links. */
  lemma RenderPreconnect(server: string, attr: string)
    ensures Render(LinkTag(server, "preconnect", false), attr)
      + Render(LinkTag(server + "/css2", "preconnect", true), attr) == Preconnect(server, attr)
  {
    var first := "<link href=\"" + server + "\" rel=\"preconnect\" " + attr + ">";
    var second := "<link href=\"" + (server + "/css2") + "\" rel=\"preconnect\" crossorigin " + attr + ">";
    assert RelPart(LinkTag(server, "preconnect", false)) == "\" rel=\"preconnect\" ";
    assert Render(LinkTag(server, "preconnect", false), attr) == first;
    assert RelPart(LinkTag(server + "/css2", "preconnect", true)) == "\" rel=\"preconnect\" crossorigin ";
    assert Render(LinkTag(server + "/css2", "preconnect", true), attr) == second;
  }

  lemma {:induction false} StylesheetLinksRenderTags(server: string, fonts: seq<InstalledFont>, attr: string)
    ensures var t := StylesheetTags(server, fonts);
      StylesheetLinks(server, fonts, attr) == if t.Success? then Success(RenderAll(t.value, attr)) else Failure(t.error)
  {
    if fonts != [] && fonts[0].name.Some? {
      StylesheetLinksRenderTags(server, fonts[1..], attr);
      RenderStylesheet(StylesheetHref(server, fonts[0].name.value), attr);
      var t := StylesheetTags(server, fonts);
      if t.Success? {
        assert t.value[1..] == StylesheetTags(server, fonts[1..]).value;
      }
    }
  }

  /** `getHtml` writes out exactly the descriptors of `LinkTags`, each carrying `attr`,
      and throws exactly where `LinkTags` fails. */
  lemma GetHtmlRendersTags(server: string, fonts: seq<InstalledFont>, attr: string)
    ensures var t := LinkTags(server, fonts);
      GetHtml(server, fonts, attr) == if t.Success? then Success(RenderAll(t.value, attr)) else Failure(t.error)
  {
    StylesheetLinksRenderTags(server, fonts, attr);
    var st := StylesheetTags(server, fonts);
    if fonts == [] {
      assert "" + "" == "";
    } else if st.Success? {
      var tags := LinkTags(server, fonts).value;
      RenderPreconnect(server, attr);
      assert tags[1..][1..] == tags[2..] == st.value;
      calc {
        RenderAll(tags, attr);
        Render(tags[0], attr) + RenderAll(tags[1..], attr);
        Render(tags[0], attr) + (Render(tags[1], attr) + RenderAll(tags[2..], attr));
        Preconnect(server, attr) + RenderAll(st.value, attr);
      }
    }
  }

  /** An empty font list yields no markup at all, not even the preconnect links. */
  lemma GetHtmlEmpty(server: string, attr: string)
    ensures GetHtml(server, [], attr) == Success("")
  {
    assert "" + "" == "";
  }

  /** The family parameter of a stylesheet link has no space and reads back as the font's
      name (for names without `+`). */
  /** How a reader of a stylesheet URL finds its `family` parameter: the text between
      `<server>/css2?family=` and `&display=swap`, with every `+` read as a space. */
  function FamilyParameter(server: string, href: string): Option<string> {
    var before, after := server + "/css2?family=", "&display=swap";
    if |href| >= |before| + |after| && href[..|before|] == before && href[|href| - |after|..] == after
    then Some(PlusToSpace(href[|before|..|href| - |after|]))
    else None
  }

  /** The family parameter of a stylesheet URL holds no space, and reads back as the
      font's name whenever the name holds no `+`. */
  lemma StylesheetHrefEncodesName(server: string, name: string)
    ensures var href := StylesheetHref(server, name);
      && ' ' !in href[|server + "/css2?family="|..|href| - |"&display=swap"|]
      && ('+' !in name ==> FamilyParameter(server, href) == Some(name))
  {
    SpaceToPlusRoundTrip(name);
    var before, after := server + "/css2?family=", "&display=swap";
    var enc := SpaceToPlus(name);
    var href := StylesheetHref(server, name);
    assert href == before + enc + after;
    assert href[..|before|] == before;
    assert href[|href| - |after|..] == after;
    assert href[|before|..|href| - |after|] == enc;
  }
}
