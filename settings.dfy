/** The settings page (src/app/admin/settings/page.tsx): the schema of the
    settings form, the values the form loads from the stored settings, the
    colour reset, the save, and the input guards of the colour converters.
    The HSL/RGB arithmetic of the converters is floating point and is taken
    as parameters; the URL check is the parameter `isUrl`. */
module Settings {
  import opened Types
  import opened Text
  import opened Store

  /** The id of the one settings document. */
  const SettingsDocId := "app-configuration"

  const DefaultForeground := "25 55% 15%"
  const DefaultMutedForeground := "25 55% 15%"
  const DefaultPrimary := "25 55% 15%"
  const DefaultAccent := "30 48% 64%"

  // ---------------------------------------------------------------------
  // The HSL colour format: \d{1,3}\s\d{1,3}%\s\d{1,3}%
  // ---------------------------------------------------------------------

  /** The length of the run of digits `s` starts with. */
  function LeadingDigits(s: string): (n: nat)
    ensures n <= |s|
    ensures forall i :: 0 <= i < n ==> IsDigit(s[i])
    ensures n < |s| ==> !IsDigit(s[n])
  {
    if s != [] && IsDigit(s[0]) then 1 + LeadingDigits(s[1..]) else 0
  }

  /** `\d{1,3}`. */
  predicate DigitGroup(g: string) {
    1 <= |g| <= 3 && forall i :: 0 <= i < |g| ==> IsDigit(g[i])
  }

  /** `\d{1,3}%` at the end of the input: the lightness. */
  predicate LightnessPart(u: string) {
    var n := LeadingDigits(u);
    1 <= n <= 3 && |u| == n + 1 && u[n] == '%'
  }

  /** `\d{1,3}%\s` and then the lightness: the saturation. */
  predicate SaturationPart(t: string) {
    var n := LeadingDigits(t);
    1 <= n <= 3 && n + 1 < |t| && t[n] == '%' && IsSpace(t[n + 1]) && LightnessPart(t[n + 2..])
  }

  /** The colour regular expression, matched left to right: since `\d`,
      `\s` and `%` share no character, each digit run is taken whole. */
  predicate IsHslColor(s: string) {
    var n := LeadingDigits(s);
    1 <= n <= 3 && n < |s| && IsSpace(s[n]) && SaturationPart(s[n + 1..])
  }

  /** `s` is hue, whitespace, saturation, '%', whitespace, lightness, '%'. */
  predicate HslShape(s: string, h: string, w1: char, sat: string, w2: char, l: string) {
    && DigitGroup(h) && DigitGroup(sat) && DigitGroup(l) && IsSpace(w1) && IsSpace(w2)
    && s == h + ([w1] + (sat + ("%" + [w2] + (l + "%"))))
  }

  /** A run of digits followed by a non-digit is the leading run. */
  lemma {:induction false} LeadingDigitsOf(g: string, rest: string)
    requires forall i :: 0 <= i < |g| ==> IsDigit(g[i])
    requires rest != [] && !IsDigit(rest[0])
    ensures LeadingDigits(g + rest) == |g|
  {
    if g != [] {
      LeadingDigitsOf(g[1..], rest);
      assert (g + rest)[1..] == g[1..] + rest;
    } else {
      assert g + rest == rest;
    }
  }

  lemma LightnessOf(l: string)
    requires DigitGroup(l)
    ensures LightnessPart(l + "%")
  {
    LeadingDigitsOf(l, "%");
  }

  lemma SaturationOf(sat: string, w2: char, l: string)
    requires DigitGroup(sat) && IsSpace(w2) && DigitGroup(l)
    ensures SaturationPart(sat + ("%" + [w2] + (l + "%")))
  {
    var t := sat + ("%" + [w2] + (l + "%"));
    LeadingDigitsOf(sat, "%" + [w2] + (l + "%"));
    assert t[|sat| + 2..] == l + "%";
    LightnessOf(l);
  }

  /** Every string of the shape matches. */
  lemma HslColorOfParts(s: string, h: string, w1: char, sat: string, w2: char, l: string)
    requires HslShape(s, h, w1, sat, w2, l)
    ensures IsHslColor(s)
  {
    var t := sat + ("%" + [w2] + (l + "%"));
    assert s == h + ([w1] + t);
    LeadingDigitsOf(h, [w1] + t);
    assert s[|h| + 1..] == t;
    SaturationOf(sat, w2, l);
  }

  lemma LightnessParts(u: string)
    requires LightnessPart(u)
    ensures DigitGroup(u[..|u| - 1]) && u == u[..|u| - 1] + "%"
  {
  }

  lemma SaturationParts(t: string) returns (sat: string, w2: char, l: string)
    requires SaturationPart(t)
    ensures DigitGroup(sat) && IsSpace(w2) && DigitGroup(l)
    ensures t == sat + ("%" + [w2] + (l + "%"))
  {
    var n := LeadingDigits(t);
    var u := t[n + 2..];
    sat, w2, l := t[..n], t[n + 1], u[..|u| - 1];
    LightnessParts(u);
    assert t[n..] == "%" + [w2] + u;
    assert t == sat + t[n..];
  }

  lemma HueParts(s: string) returns (h: string, w1: char, t: string)
    requires IsHslColor(s)
    ensures DigitGroup(h) && IsSpace(w1) && SaturationPart(t)
    ensures s == h + ([w1] + t)
  {
    var n := LeadingDigits(s);
    h, w1, t := s[..n], s[n], s[n + 1..];
    SplitAround(s, n);
  }

  /** A string is the part before position `n`, the character there, and
      the part after. */
  lemma SplitAround(s: string, n: nat)
    requires n < |s|
    ensures s == s[..n] + ([s[n]] + s[n + 1..])
  {
    assert [s[n]] + s[n + 1..] == s[n..];
  }

  /** Every match has the shape: the parts are where the matcher found them. */
  lemma HslColorParts(s: string)
    requires IsHslColor(s)
    ensures exists h, w1, sat, w2, l :: HslShape(s, h, w1, sat, w2, l)
  {
    var h, w1, t := HueParts(s);
    var sat, w2, l := SaturationParts(t);
    assert HslShape(s, h, w1, sat, w2, l);
  }

  /** The colour rule in both directions. */
  lemma HslColorIff(s: string)
    ensures IsHslColor(s) <==> exists h, w1, sat, w2, l :: HslShape(s, h, w1, sat, w2, l)
  {
    if IsHslColor(s) {
      HslColorParts(s);
    }
    if exists h, w1, sat, w2, l :: HslShape(s, h, w1, sat, w2, l) {
      var h, w1, sat, w2, l :| HslShape(s, h, w1, sat, w2, l);
      HslColorOfParts(s, h, w1, sat, w2, l);
    }
  }

  /** The rule checks only the digits, not the ranges: a hue of 999 and
      percentages of 999 are accepted. */
  lemma NoRangeCheck()
    ensures IsHslColor("999 999% 999%")
  {
    assert HslShape("999 999% 999%", "999", ' ', "999", ' ', "999");
    HslColorOfParts("999 999% 999%", "999", ' ', "999", ' ', "999");
  }

  lemma DefaultForegroundValid()
    ensures IsHslColor(DefaultForeground)
  {
    assert HslShape(DefaultForeground, "25", ' ', "55", ' ', "15");
    HslColorOfParts(DefaultForeground, "25", ' ', "55", ' ', "15");
  }

  lemma DefaultAccentValid()
    ensures IsHslColor(DefaultAccent)
  {
    assert HslShape(DefaultAccent, "30", ' ', "48", ' ', "64");
    HslColorOfParts(DefaultAccent, "30", ' ', "48", ' ', "64");
  }

  /** The default colours are accepted. */
  lemma DefaultColorsValid()
    ensures IsHslColor(DefaultForeground) && IsHslColor(DefaultMutedForeground)
    ensures IsHslColor(DefaultPrimary) && IsHslColor(DefaultAccent)
  {
    DefaultForegroundValid();
    DefaultAccentValid();
  }

  // ---------------------------------------------------------------------
  // The schema
  // ---------------------------------------------------------------------

  predicate AllDigits(s: string) {
    forall i :: 0 <= i < |s| ==> IsDigit(s[i])
  }

  const BadPhone := "Please enter a valid phone number with country code, without spaces or symbols."
  const ShortPhone := "Number must be at least 10 digits."
  const BadUrl := "Please enter a valid URL."
  const BadHsl := "Invalid HSL format."

  /** The WhatsApp rule: `^[0-9]+$`, then at least ten characters; both
      checks report. */
  function PhoneIssues(s: string): (issues: seq<string>)
    ensures issues == [] <==> |s| >= 10 && AllDigits(s)
    ensures BadPhone in issues <==> s == "" || !AllDigits(s)
    ensures ShortPhone in issues <==> |s| < 10
  {
    (if s != "" && AllDigits(s) then [] else [BadPhone]) + (if |s| < 10 then [ShortPhone] else [])
  }

  datatype SettingsValues = SettingsValues(
    whatsappNumber: string,
    aboutUsImageUrl: string,
    showHeroSection: bool,
    showProductsSection: bool,
    themeForeground: string,
    themeMutedForeground: string,
    themePrimary: string,
    themeAccent: string)

  datatype SettingsField =
    | WhatsappNumberField | AboutUsImageUrlField
    | ThemeForegroundField | ThemeMutedForegroundField | ThemePrimaryField | ThemeAccentField

  datatype Issue = Issue(field: SettingsField, message: string)

  function ColorIssues(field: SettingsField, s: string): (issues: seq<Issue>)
    ensures issues == [] <==> IsHslColor(s)
  {
    if IsHslColor(s) then [] else [Issue(field, BadHsl)]
  }

  /** Every message of the schema, in the order of its keys. The image
      address may be empty or a URL; the switches cannot fail. */
  function SettingsIssues(v: SettingsValues, isUrl: string -> bool): (issues: seq<Issue>)
    ensures issues == [] <==> SettingsValid(v, isUrl)
  {
    seq(|PhoneIssues(v.whatsappNumber)|, i requires 0 <= i < |PhoneIssues(v.whatsappNumber)| =>
      Issue(WhatsappNumberField, PhoneIssues(v.whatsappNumber)[i]))
    + (if v.aboutUsImageUrl == "" || isUrl(v.aboutUsImageUrl) then [] else [Issue(AboutUsImageUrlField, BadUrl)])
    + ColorIssues(ThemeForegroundField, v.themeForeground)
    + ColorIssues(ThemeMutedForegroundField, v.themeMutedForeground)
    + ColorIssues(ThemePrimaryField, v.themePrimary)
    + ColorIssues(ThemeAccentField, v.themeAccent)
  }

  predicate ColorsValid(v: SettingsValues) {
    IsHslColor(v.themeForeground) && IsHslColor(v.themeMutedForeground)
    && IsHslColor(v.themePrimary) && IsHslColor(v.themeAccent)
  }

  predicate SettingsValid(v: SettingsValues, isUrl: string -> bool) {
    && |v.whatsappNumber| >= 10 && AllDigits(v.whatsappNumber)
    && (v.aboutUsImageUrl == "" || isUrl(v.aboutUsImageUrl))
    && ColorsValid(v)
  }

  // ---------------------------------------------------------------------
  // Defaults, loading, reset, save
  // ---------------------------------------------------------------------

  /** The values before the stored settings arrive. */
  const DefaultValues := SettingsValues("", "", true, true,
    DefaultForeground, DefaultMutedForeground, DefaultPrimary, DefaultAccent)

  /** The form's values once the stored settings arrive: a switch is on
      unless stored as `false`, and an empty or missing colour falls back to
      its default. */
  function LoadedValues(s: AppSettings): (v: SettingsValues)
    ensures v.whatsappNumber == s.whatsappNumber
    ensures v.aboutUsImageUrl == (if Truthy(s.aboutUsImageUrl) then s.aboutUsImageUrl.value else "")
    ensures v.showHeroSection <==> s.showHeroSection != Some(false)
    ensures v.showProductsSection <==> s.showProductsSection != Some(false)
    ensures v.themeForeground == (if Truthy(s.themeForeground) then s.themeForeground.value else DefaultForeground)
    ensures v.themeMutedForeground ==
      (if Truthy(s.themeMutedForeground) then s.themeMutedForeground.value else DefaultMutedForeground)
    ensures v.themePrimary == (if Truthy(s.themePrimary) then s.themePrimary.value else DefaultPrimary)
    ensures v.themeAccent == (if Truthy(s.themeAccent) then s.themeAccent.value else DefaultAccent)
  {
    SettingsValues(
      if s.whatsappNumber != "" then s.whatsappNumber else "",
      OrElse(s.aboutUsImageUrl, ""),
      NotFalse(s.showHeroSection),
      NotFalse(s.showProductsSection),
      OrElse(s.themeForeground, DefaultForeground),
      OrElse(s.themeMutedForeground, DefaultMutedForeground),
      OrElse(s.themePrimary, DefaultPrimary),
      OrElse(s.themeAccent, DefaultAccent))
  }

  /** A loaded colour is never empty. */
  lemma LoadedColorsNonEmpty(s: AppSettings)
    ensures var v := LoadedValues(s);
      v.themeForeground != "" && v.themeMutedForeground != "" && v.themePrimary != "" && v.themeAccent != ""
  {
  }

  /** Settings with no colour stored load the default colours, which are
      accepted. */
  lemma NoStoredColorsLoadDefaults(s: AppSettings)
    requires !Truthy(s.themeForeground) && !Truthy(s.themeMutedForeground)
    requires !Truthy(s.themePrimary) && !Truthy(s.themeAccent)
    ensures ColorsValid(LoadedValues(s))
  {
    DefaultColorsValid();
  }

  /** The colours put back to the defaults, everything else kept. */
  function WithDefaultColors(v: SettingsValues): (r: SettingsValues)
    ensures r.whatsappNumber == v.whatsappNumber && r.aboutUsImageUrl == v.aboutUsImageUrl
    ensures r.showHeroSection == v.showHeroSection && r.showProductsSection == v.showProductsSection
    ensures ColorsValid(r)
  {
    DefaultColorsValid();
    v.(themeForeground := DefaultForeground, themeMutedForeground := DefaultMutedForeground,
       themePrimary := DefaultPrimary, themeAccent := DefaultAccent)
  }

  /** After a reset only the number and the image address can fail. */
  lemma ResetLeavesOtherIssues(v: SettingsValues, isUrl: string -> bool)
    ensures SettingsValid(WithDefaultColors(v), isUrl) <==>
      |v.whatsappNumber| >= 10 && AllDigits(v.whatsappNumber) && (v.aboutUsImageUrl == "" || isUrl(v.aboutUsImageUrl))
  {
  }

  /** The settings document after a save with merge: the form's fields are
      written, and a field the form does not hold (the theme name) is kept. */
  function MergeSettings(existing: Option<AppSettings>, v: SettingsValues): (s: AppSettings)
    ensures s.id == SettingsDocId
    ensures s.themeName == (if existing.Some? then existing.value.themeName else None)
    ensures s.whatsappNumber == v.whatsappNumber && s.aboutUsImageUrl == Some(v.aboutUsImageUrl)
    ensures s.showHeroSection == Some(v.showHeroSection) && s.showProductsSection == Some(v.showProductsSection)
    ensures s.themeForeground == Some(v.themeForeground) && s.themeMutedForeground == Some(v.themeMutedForeground)
    ensures s.themePrimary == Some(v.themePrimary) && s.themeAccent == Some(v.themeAccent)
  {
    AppSettings(SettingsDocId, v.whatsappNumber, Some(v.aboutUsImageUrl),
      Some(v.showHeroSection), Some(v.showProductsSection),
      if existing.Some? then existing.value.themeName else None,
      Some(v.themeForeground), Some(v.themeMutedForeground), Some(v.themePrimary), Some(v.themeAccent))
  }

  /** Saving accepted values and loading them back gives the same values. */
  lemma SaveThenLoad(existing: Option<AppSettings>, v: SettingsValues, isUrl: string -> bool)
    requires SettingsValid(v, isUrl)
    ensures LoadedValues(MergeSettings(existing, v)) == v
  {
    var s := MergeSettings(existing, v);
    assert v.themeForeground != "" && v.themeMutedForeground != "";
    assert v.themePrimary != "" && v.themeAccent != "";
  }

  /** Loading and saving unchanged keeps a document whose fields are all
      present and non-empty. */
  lemma LoadThenSave(s: AppSettings)
    requires s.id == SettingsDocId
    requires Truthy(s.aboutUsImageUrl) && s.showHeroSection.Some? && s.showProductsSection.Some?
    requires Truthy(s.themeForeground) && Truthy(s.themeMutedForeground)
    requires Truthy(s.themePrimary) && Truthy(s.themeAccent)
    ensures MergeSettings(Some(s), LoadedValues(s)) == s
  {
    var v := LoadedValues(s);
    assert Some(v.showHeroSection) == s.showHeroSection by {
      if s.showHeroSection.value { assert s.showHeroSection != Some(false); }
    }
    assert Some(v.showProductsSection) == s.showProductsSection by {
      if s.showProductsSection.value { assert s.showProductsSection != Some(false); }
    }
  }

  /** What a submit does. */
  datatype SaveOutcome = Invalid(issues: seq<Issue>) | NotConnected | Saved(record: AppSettings)

  /** The form's state: its values, and whether the stored settings are
      still loading. */
  class SettingsForm {
    var values: SettingsValues

    constructor ()
      ensures values == DefaultValues
    {
      values := DefaultValues;
    }

    /** The effect that runs when the stored settings arrive. */
    method OnSettings(settings: Option<AppSettings>)
      modifies this
      ensures settings.Some? ==> values == LoadedValues(settings.value)
      ensures settings.None? ==> values == old(values)
    {
      if settings.Some? {
        values := LoadedValues(settings.value);
      }
    }

    /** `handleResetColors`: the four colours are set one after the other. */
    method ResetColors()
      modifies this
      ensures values == WithDefaultColors(old(values))
    {
      values := values.(themeForeground := DefaultForeground);
      values := values.(themeMutedForeground := DefaultMutedForeground);
      values := values.(themePrimary := DefaultPrimary);
      values := values.(themeAccent := DefaultAccent);
    }

    /** `form.handleSubmit(onSubmit)`: the schema first, then, with a store
        connection, a merge into the settings document. */
    method Submit(db: Option<Collection<AppSettings>>, isUrl: string -> bool) returns (r: SaveOutcome)
      modifies if db.Some? then {db.value} else {}
      ensures r.Invalid? <==> !SettingsValid(old(values), isUrl)
      ensures r.Invalid? ==> r.issues == SettingsIssues(old(values), isUrl)
      ensures r.NotConnected? <==> SettingsValid(old(values), isUrl) && db.None?
      ensures db.Some? && r.Saved? ==>
        && r.record == MergeSettings(if SettingsDocId in old(db.value.docs) then Some(old(db.value.docs)[SettingsDocId]) else None, old(values))
        && db.value.docs == old(db.value.docs)[SettingsDocId := r.record]
      ensures db.Some? && !r.Saved? ==> db.value.docs == old(db.value.docs)
    {
      if !SettingsValid(values, isUrl) {
        r := Invalid(SettingsIssues(values, isUrl));
      } else if db.None? {
        r := NotConnected;
      } else {
        var existing := if SettingsDocId in db.value.docs then Some(db.value.docs[SettingsDocId]) else None;
        var record := MergeSettings(existing, values);
        db.value.Set(SettingsDocId, record);
        r := Saved(record);
      }
    }
  }

  // ---------------------------------------------------------------------
  // The colour converters' input guards
  // ---------------------------------------------------------------------

  /** `[a-f\d]` under the `i` flag. */
  predicate IsHexDigit(c: char) {
    IsDigit(c) || 'a' <= c <= 'f' || 'A' <= c <= 'F'
  }

  function HexValue(c: char): (d: nat)
    requires IsHexDigit(c)
    ensures d < 16
  {
    if IsDigit(c) then c as int - '0' as int
    else if 'a' <= c <= 'f' then c as int - 'a' as int + 10
    else c as int - 'A' as int + 10
  }

  /** The six digits after an optional '#'. */
  function HexBody(hex: string): (body: string)
    ensures |body| <= |hex|
  {
    if |hex| == 7 && hex[0] == '#' then hex[1..] else hex
  }

  /** `/^#?([a-f\d]{2})([a-f\d]{2})([a-f\d]{2})$/i`. */
  predicate IsHexColor(hex: string) {
    var body := HexBody(hex);
    |body| == 6 && forall i :: 0 <= i < 6 ==> IsHexDigit(body[i])
  }

  function Channel(a: char, b: char): (v: nat)
    requires IsHexDigit(a) && IsHexDigit(b)
    ensures v < 256
  {
    16 * HexValue(a) + HexValue(b)
  }

  /** The guard and `parseInt(result[k], 16)` of `hexToHsl`: the three
      channels, or `None` (the `null` result) when the input does not match. */
  function HexChannels(hex: string): (rgb: Option<(nat, nat, nat)>)
    ensures rgb.Some? <==> IsHexColor(hex)
    ensures rgb.Some? ==> rgb.value.0 < 256 && rgb.value.1 < 256 && rgb.value.2 < 256
  {
    if IsHexColor(hex) then
      var b := HexBody(hex);
      Some((Channel(b[0], b[1]), Channel(b[2], b[3]), Channel(b[4], b[5])))
    else None
  }

  /** `n.toString(16)` for a single digit, which is lower-case. */
  function HexChar(d: nat): (c: char)
    requires d < 16
    ensures IsHexDigit(c) && HexValue(c) == d
  {
    if d < 10 then ('0' as int + d) as char else ('a' as int + d - 10) as char
  }

  /** `n.toString(16).padStart(2, '0')` for a channel. */
  function Hex2(n: nat): (s: string)
    requires n < 256
    ensures |s| == 2 && IsHexDigit(s[0]) && IsHexDigit(s[1]) && Channel(s[0], s[1]) == n
  {
    [HexChar(n / 16), HexChar(n % 16)]
  }

  /** The `#rrggbb` form `hslToHex` builds from three channels. */
  function FormatHex(r: nat, g: nat, b: nat): (hex: string)
    requires r < 256 && g < 256 && b < 256
    ensures |hex| == 7 && hex[0] == '#'
  {
    "#" + Hex2(r) + Hex2(g) + Hex2(b)
  }

  /** Every colour `hslToHex` produces passes the guard of `hexToHsl` and
      gives back its channels. */
  lemma FormatHexRoundTrip(r: nat, g: nat, b: nat)
    requires r < 256 && g < 256 && b < 256
    ensures HexChannels(FormatHex(r, g, b)) == Some((r, g, b))
  {
    var hex := FormatHex(r, g, b);
    var body := HexBody(hex);
    assert body == Hex2(r) + Hex2(g) + Hex2(b);
  }

  /** The guard ignores case. */
  lemma HexChannelsIgnoreCase(hex: string)
    ensures HexChannels(Lower(hex)) == HexChannels(hex)
  {
    var lb := HexBody(Lower(hex));
    var hb := HexBody(hex);
    HexBodyLower(hex);
    forall i | 0 <= i < |hb|
      ensures IsHexDigit(lb[i]) == IsHexDigit(hb[i])
      ensures IsHexDigit(hb[i]) ==> HexValue(lb[i]) == HexValue(hb[i])
    {
      HexDigitLower(hb[i]);
    }
    assert IsHexColor(Lower(hex)) == IsHexColor(hex);
  }

  /** Lowercasing commutes with taking the six digits. */
  lemma HexBodyLower(hex: string)
    ensures HexBody(Lower(hex)) == Lower(HexBody(hex))
  {
    var low := Lower(hex);
    if |hex| == 7 && hex[0] == '#' {
      assert low[0] == '#';
      assert low[1..] == Lower(hex[1..]);
    } else {
      assert !(|low| == 7 && low[0] == '#');
    }
  }

  /** A hex digit stays one, with the same value, when lower-cased. */
  lemma HexDigitLower(c: char)
    ensures IsHexDigit(ToLower(c)) == IsHexDigit(c)
    ensures IsHexDigit(c) ==> HexValue(ToLower(c)) == HexValue(c)
  {
  }

  /** The colour picker's change handler: a colour that passes the guard
      becomes the field's HSL value (`toHsl` is the conversion arithmetic);
      anything else leaves the field as it was. */
  function PickColor(current: string, hex: string, toHsl: ((nat, nat, nat)) -> string): (next: string)
    ensures !IsHexColor(hex) ==> next == current
    ensures IsHexColor(hex) ==> next == toHsl(HexChannels(hex).value)
  {
    match HexChannels(hex)
    case None => current
    case Some(rgb) => toHsl(rgb)
  }

  /** The early return of `hslToHex`: empty input, or fewer than three
      parts when split on ' '. It refuses exactly the strings with fewer
      than two spaces. */
  predicate HslToHexRefuses(hsl: string)
    ensures HslToHexRefuses(hsl) <==> Occurrences(hsl, ' ') < 2
  {
    hsl == "" || |Split(hsl, ' ')| < 3
  }

  /** The colour picker's value: black for an empty field or a refused
      colour, otherwise the conversion `toHex` (the arithmetic). The test
      for an empty field is the JSX's own; the guard of `hslToHex` would
      refuse it anyway. */
  function PickerValue(value: string, toHex: string -> string): (shown: string)
    ensures HslToHexRefuses(value) ==> shown == "#000000"
    ensures !HslToHexRefuses(value) ==> shown == toHex(value)
  {
    if value == "" then "#000000" else if HslToHexRefuses(value) then "#000000" else toHex(value)
  }

  /** A digit group has no space. */
  lemma DigitGroupNoSpace(g: string)
    requires DigitGroup(g)
    ensures ' ' !in g && '\t' !in g
  {
    assert forall i :: 0 <= i < |g| ==> g[i] != ' ' && g[i] != '\t';
  }

  /** The spaces in an accepted colour are its two separators. */
  lemma {:induction false} ShapeSpaces(s: string, h: string, w1: char, sat: string, w2: char, l: string)
    requires HslShape(s, h, w1, sat, w2, l)
    ensures Occurrences(s, ' ') == (if w1 == ' ' then 1 else 0) + (if w2 == ' ' then 1 else 0)
  {
    DigitGroupNoSpace(h);
    DigitGroupNoSpace(sat);
    DigitGroupNoSpace(l);
    OccurrencesNone(h, ' ');
    OccurrencesNone(sat + "%", ' ');
    OccurrencesNone(l + "%", ' ');
    OccurrencesConcat(h, [w1], ' ');
    OccurrencesConcat(h + [w1], sat + "%", ' ');
    OccurrencesConcat(h + [w1] + (sat + "%"), [w2], ' ');
    OccurrencesConcat(h + [w1] + (sat + "%") + [w2], l + "%", ' ');
    ShapeRegroup(h, w1, sat, w2, l);
  }

  /** The colour's parts, regrouped from the right to the left. */
  lemma ShapeRegroup(h: string, w1: char, sat: string, w2: char, l: string)
    ensures h + ([w1] + (sat + ("%" + [w2] + (l + "%")))) == h + [w1] + (sat + "%") + [w2] + (l + "%")
  {
  }

  /** An accepted colour separated by single spaces gets past the guard of
      `hslToHex`; one separated by another whitespace character, such as a
      tab, is accepted by the schema yet shown black by the picker. */
  lemma AcceptedColorPicker(s: string, h: string, w1: char, sat: string, w2: char, l: string, toHex: string -> string)
    requires HslShape(s, h, w1, sat, w2, l)
    ensures IsHslColor(s)
    ensures w1 == ' ' && w2 == ' ' ==> PickerValue(s, toHex) == toHex(s)
    ensures w1 != ' ' || w2 != ' ' ==> PickerValue(s, toHex) == "#000000"
  {
    HslColorOfParts(s, h, w1, sat, w2, l);
    ShapeSpaces(s, h, w1, sat, w2, l);
  }
}
