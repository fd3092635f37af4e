/** The font list offered by the style editor's `font-family` property
    (`updateUi` in src/fonts.js). */
module StyleOptions {

  /** The options `updateUi` sets: the editor's built-in fonts followed by the installed
      ones when `preserveDefaultFonts` is on; otherwise the installed fonts, or the
      built-in fonts when none is installed. */
  function FontOptions<T>(defaults: seq<T>, installed: seq<T>, preserveDefaults: bool): (r: seq<T>)
    ensures preserveDefaults ==> defaults <= r && r[|defaults|..] == installed
    ensures !preserveDefaults && installed != [] ==> r == installed
    ensures !preserveDefaults && installed == [] ==> r == defaults
  {
    if preserveDefaults then defaults + installed
    else if installed == [] then defaults
    else installed
  }

  /** Every installed font is offered; every option is a built-in or an installed font;
      the list is empty only when both are; built-in fonts disappear only when the
      defaults are not preserved and some font is installed. */
  lemma FontOptionsSpec<T>(defaults: seq<T>, installed: seq<T>, preserveDefaults: bool)
    ensures var r := FontOptions(defaults, installed, preserveDefaults);
      && (forall i :: 0 <= i < |installed| ==> installed[i] in r)
      && (forall i :: 0 <= i < |r| ==> r[i] in defaults || r[i] in installed)
      && (r == [] <==> defaults == [] && installed == [])
      && ((forall i :: 0 <= i < |defaults| ==> defaults[i] in r) || (!preserveDefaults && installed != []))
  {
    var r := FontOptions(defaults, installed, preserveDefaults);
    if preserveDefaults {
      forall i | 0 <= i < |installed| ensures installed[i] in r {
        assert r[|defaults| + i] == installed[i];
      }
      forall i | 0 <= i < |defaults| ensures defaults[i] in r {
        assert r[i] == defaults[i];
      }
    }
  }
}
