/** The weight/style axis of a font preview (`generateFontPreview` in src/fonts.js):
    each selected variant token gives an (italic, weight) pair, written as the key
    `"<italic>,<weight>"`; the keys are collected without repetition in first-seen
    order and joined into the `:ital,wght@` axis of a css2 URL. */
module Preview {

  import opened Wrappers
  import opened Text
  import opened Seqs
  import opened FontModel

  /** The italic flag (0 or 1) and the numeric weight a variant token stands for. */
  datatype StylePair = StylePair(italic: nat, weight: nat)

  /** The weight of a token without digits, such as "regular" or "italic". */
  const DefaultWeight: nat := 400

  /** `/italic/i.test(v) ? 1 : 0`. */
  function ItalicFlag(v: string): nat {
    if Match(v, "italic") then 1 else 0
  }

  /** `m ? parseInt(m[0], 10) : 400` with `m = String(v).match(/\d+/)`. */
  function Weight(v: string): nat {
    FirstDigitRunSpec(v);
    match FirstDigitRun(v)
    case Some(d) => DecimalValue(d)
    case None => DefaultWeight
  }

  /** The pair of one token. */
  function PairOf(v: string): StylePair {
    StylePair(ItalicFlag(v), Weight(v))
  }

  /** A token is italic exactly when "italic" occurs in it in any case. */
  lemma ItalicFlagSpec(v: string)
    ensures ItalicFlag(v) == 0 || ItalicFlag(v) == 1
    ensures ItalicFlag(v) == 1 <==> IsSubstring("italic", Lower(v))
  {
    MatchIsCaseInsensitiveSubstring(v, "italic");
    assert Lower("italic") == "italic";
  }

  /** A token has the default weight because it holds no digit, or else its weight is
      its first digit run. */
  lemma WeightSpec(v: string)
    ensures (forall i :: 0 <= i < |v| ==> !IsDigit(v[i])) <==> FirstDigitRun(v).None?
    ensures FirstDigitRun(v).None? ==> Weight(v) == DefaultWeight
    ensures FirstDigitRun(v).Some? ==> Weight(v) == DecimalValue(FirstDigitRun(v).value)
  {
    FirstDigitRunSpec(v);
  }

  /** The pair of a token: italic exactly when "italic" occurs in it in any case; the
      default weight when it holds no digit, otherwise its first digit run. */
  lemma PairOfSpec(v: string)
    ensures PairOf(v).italic == 0 || PairOf(v).italic == 1
    ensures PairOf(v).italic == 1 <==> IsSubstring("italic", Lower(v))
    ensures (forall i :: 0 <= i < |v| ==> !IsDigit(v[i])) ==> PairOf(v).weight == DefaultWeight
    ensures FirstDigitRun(v).Some? ==> PairOf(v).weight == DecimalValue(FirstDigitRun(v).value)
  {
    ItalicFlagSpec(v);
    WeightSpec(v);
  }

  /** `` `${italic},${w}` ``. */
  function Key(p: StylePair): string {
    NatToString(p.italic) + "," + NatToString(p.weight)
  }

  /** The position of the first comma of `s`, or `|s|` when there is none. */
  function CommaIndex(s: string): (k: nat)
    ensures k <= |s| && (k < |s| ==> s[k] == ',')
    ensures forall i :: 0 <= i < k ==> s[i] != ','
  {
    if s == [] || s[0] == ',' then 0 else 1 + CommaIndex(s[1..])
  }

  /** `const [ital, wght] = k.split(',')`, read back as numbers. */
  function ParseKey(k: string): Option<StylePair> {
    var i := CommaIndex(k);
    if i == |k| then None
    else
      var ital, wght := k[..i], k[i + 1..];
      if ital != [] && wght != [] && AllDigits(ital) && AllDigits(wght)
      then Some(StylePair(DecimalValue(ital), DecimalValue(wght)))
      else None
  }

  /** A key splits back into the pair it was written from, so two pairs have the same key
      only when they are the same pair. */
  lemma KeyRoundTrip(p: StylePair)
    ensures ParseKey(Key(p)) == Some(p)
  {
    var a, b := NatToString(p.italic), NatToString(p.weight);
    var k := Key(p);
    assert k[|a|] == ',';
    assert forall i :: 0 <= i < |a| ==> k[i] == a[i] && IsDigit(k[i]);
    assert CommaIndex(k) == |a|;
    assert k[..|a|] == a && k[|a| + 1..] == b;
    DecimalRoundTrip(p.italic);
    DecimalRoundTrip(p.weight);
  }

  /** The key of each token, in token order. */
  function KeysOf(raw: seq<string>): (r: seq<string>)
    ensures |r| == |raw| && forall i :: 0 <= i < |raw| ==> r[i] == Key(PairOf(raw[i]))
  {
    if raw == [] then [] else KeysOf(raw[..|raw| - 1]) + [Key(PairOf(raw[|raw| - 1]))]
  }

  lemma KeysOfSnoc(raw: seq<string>, i: nat)
    requires i < |raw|
    ensures KeysOf(raw[..i + 1]) == KeysOf(raw[..i]) + [Key(PairOf(raw[i]))]
  {
    assert raw[..i + 1][..i] == raw[..i];
  }

  /** The keys of the preview: those of the tokens, each once, in first-seen order. */
  function PairKeys(raw: seq<string>): seq<string> {
    Dedup(KeysOf(raw))
  }

  /** The `forEach` loop of `generateFontPreview` that fills `pairs`. */
  method VariantPairs(raw: seq<string>) returns (pairs: seq<string>)
    ensures pairs == PairKeys(raw)
  {
    pairs := [];
    var i := 0;
    while i < |raw|
      invariant 0 <= i <= |raw|
      invariant pairs == Dedup(KeysOf(raw[..i]))
    {
      var v := raw[i];
      var italic := if Match(v, "italic") then 1 else 0;
      var m := FirstDigitRun(v);
      FirstDigitRunSpec(v);
      var w := if m.Some? then DecimalValue(m.value) else DefaultWeight;
      var key := NatToString(italic) + "," + NatToString(w);
      assert key == Key(PairOf(v));
      KeysOfSnoc(raw, i);
      DedupSnoc(KeysOf(raw[..i]), key);
      if key !in pairs {
        pairs := pairs + [key];
      }
      i := i + 1;
    }
    assert raw[..|raw|] == raw;
  }

  /** The collected keys repeat nothing, and each is the key of the pair of one of the
      tokens, with italic flag 0 or 1. */
  lemma PairKeysParse(raw: seq<string>)
    ensures NoDuplicates(PairKeys(raw))
    ensures forall k :: k in PairKeys(raw) ==> (ParseKey(k).Some? && ParseKey(k).value.italic <= 1
      && exists i :: 0 <= i < |raw| && ParseKey(k).value == PairOf(raw[i]))
  {
    var keys := KeysOf(raw);
    forall k | k in PairKeys(raw)
      ensures ParseKey(k).Some? && ParseKey(k).value.italic <= 1
        && exists i :: 0 <= i < |raw| && ParseKey(k).value == PairOf(raw[i])
    {
      var j :| 0 <= j < |PairKeys(raw)| && PairKeys(raw)[j] == k;
      assert k in keys;
      var i :| 0 <= i < |keys| && keys[i] == k;
      KeyRoundTrip(PairOf(raw[i]));
      PairOfSpec(raw[i]);
    }
  }

  /** The pair of every token is collected. */
  lemma PairKeysCover(raw: seq<string>)
    ensures forall i :: 0 <= i < |raw| ==> Key(PairOf(raw[i])) in PairKeys(raw)
  {
    var keys := KeysOf(raw);
    forall i | 0 <= i < |raw| ensures Key(PairOf(raw[i])) in PairKeys(raw) {
      assert keys[i] == Key(PairOf(raw[i]));
    }
  }

  /** Tokens that come later never reorder or drop the keys collected before them. */
  lemma PairKeysFirstSeenOrder(raw: seq<string>, more: seq<string>)
    ensures PairKeys(raw) <= PairKeys(raw + more)
  {
    var all := KeysOf(raw + more);
    assert all == KeysOf(raw) + all[|raw|..] by {
      assert forall i :: 0 <= i < |raw| ==> (raw + more)[i] == raw[i];
    }
    DedupPrefix(KeysOf(raw), all[|raw|..]);
  }

  /** `pairs.length ? `:ital,wght@${pairs.join(';')}` : ''`. */
  function Axis(keys: seq<string>): (r: string)
    ensures r == "" <==> keys == []
  {
    if keys == [] then "" else ":ital,wght@" + Join(keys, ";")
  }

  /** The tokens a preview draws: the font's own selection when it has one, else the catalog
      entry's variants, else `["regular"]` for a family the catalog does not know. */
  function PreviewVariants(family: string, variants: seq<string>, catalog: seq<CatalogFont>): (r: seq<string>)
    ensures |variants| > 0 ==> r == variants
    ensures variants == [] && FindCatalog(catalog, family).Some? ==> r == CatalogVariants(catalog, family)
    ensures variants == [] && FindCatalog(catalog, family).None? ==> r == ["regular"]
    ensures r == [] ==> variants == [] && CatalogVariants(catalog, family) == [] && FindCatalog(catalog, family).Some?
  {
    if |variants| > 0 then variants
    else match FindCatalog(catalog, family)
      case Some(c) => c.variants
      case None => ["regular"]
  }

  /** `font.family || font.name || ''`: the family a preview is drawn for. */
  function PreviewFamily(f: InstalledFont): (r: string)
    ensures f.family != "" ==> r == f.family
    ensures r == "" <==> f.family == "" && (f.name.None? || f.name.value == "")
  {
    if f.family != "" then f.family else f.name.GetOr("")
  }

  lemma RegularIsUpright()
    ensures ItalicFlag("regular") == 0
  {
    assert Lower("regular") == "regular";
    assert Lower("italic") == "italic";
    assert "regular"[..6][0] == 'r';
    assert "egular"[..6][0] == 'e';
  }

  lemma BoldItalicLowered()
    ensures Lower("700italic") == "700italic" && Lower("italic") == "italic"
  {
  }

  lemma BoldItalicIsItalic()
    ensures ItalicFlag("700italic") == 1
  {
    BoldItalicLowered();
    var hay := "700italic";
    assert hay[3..] == "italic";
    assert StartsWith(hay[3..], "italic");
    assert hay[1..][1..][1..] == hay[3..];
  }

  lemma ItalicIgnoresCase()
    ensures ItalicFlag("italic") == 1 && ItalicFlag("Italic") == 1
  {
    assert Lower("Italic") == "italic";
    assert Lower("italic") == "italic";
    assert StartsWith("italic", "italic");
  }

  lemma PlainWeights()
    ensures Weight("regular") == 400 && Weight("italic") == 400 && Weight("Italic") == 400
  {
    assert FirstDigitIndex("regular") == 7;
    assert FirstDigitIndex("italic") == 6;
    assert FirstDigitIndex("Italic") == 6;
  }

  lemma BoldWeight()
    ensures Weight("700italic") == 700
  {
    assert FirstDigitIndex("700italic") == 0;
    assert "700italic"[0..] == "700italic";
    assert DigitPrefix("700italic") == "700";
    assert "700"[..2] == "70" && "70"[..1] == "7";
    assert FirstDigitRun("700italic") == Some("700");
    assert DecimalValue("700") == 700;
  }

  lemma PairOfExamples()
    ensures PairOf("regular") == StylePair(0, 400) && PairOf("700italic") == StylePair(1, 700)
    ensures PairOf("italic") == StylePair(1, 400) && PairOf("Italic") == StylePair(1, 400)
  {
    RegularIsUpright();
    BoldItalicIsItalic();
    ItalicIgnoresCase();
    PlainWeights();
    BoldWeight();
  }

  lemma KeyExamples()
    ensures Key(StylePair(0, 400)) == "0,400" && Key(StylePair(1, 700)) == "1,700"
    ensures Key(StylePair(1, 400)) == "1,400"
  {
    assert NatToString(4) == "4" && NatToString(7) == "7";
    assert NatToString(40) == "40" && NatToString(70) == "70";
    assert NatToString(400) == "400" && NatToString(700) == "700";
    assert NatToString(0) == "0" && NatToString(1) == "1";
  }

  lemma KeysOfTwo(x: string, y: string)
    ensures KeysOf([x, y]) == [Key(PairOf(x)), Key(PairOf(y))]
  {
    assert [x, y][..1] == [x] && [x][..0] == [];
  }

  lemma DedupTwo(x: string, y: string)
    ensures Dedup([x, y]) == if x == y then [x] else [x, y]
  {
    DedupSnoc([], x);
    DedupSnoc([x], y);
  }

  /** A regular and a bold italic token give the keys of (0,400) and (1,700). */
  lemma PairKeysRegularAndBoldItalic()
    ensures PairKeys(["regular", "700italic"]) == ["0,400", "1,700"]
  {
    PairOfExamples();
    KeyExamples();
    KeysOfTwo("regular", "700italic");
    assert "1,700"[0] != "0,400"[0];
    DedupTwo("0,400", "1,700");
  }

  /** A token repeated in another case gives its key once. */
  lemma PairKeysRepeatedToken()
    ensures PairKeys(["italic", "Italic"]) == ["1,400"]
  {
    PairOfExamples();
    KeyExamples();
    KeysOfTwo("italic", "Italic");
    DedupTwo("1,400", "1,400");
  }
}
