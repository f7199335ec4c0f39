/** The style element that applies the stored theme colours
    (src/firebase/client-provider.tsx). */
module Theme {
  import opened Types
  import opened Text

  /** `${value ? `--name: ${value};` : ''}`. */
  function Declaration(name: string, value: Option<string>): (d: string)
    ensures Truthy(value) ==> d == "--" + name + ": " + value.value + ";"
    ensures !Truthy(value) ==> d == ""
  {
    if Truthy(value) then "--" + name + ": " + value.value + ";" else ""
  }

  /** The four declarations, in their fixed order; all empty without
      settings. */
  function Declarations(settings: Option<AppSettings>): (ds: seq<string>)
    ensures |ds| == 4
    ensures settings.None? ==> ds == ["", "", "", ""]
  {
    match settings
    case None => ["", "", "", ""]
    case Some(s) => [
      Declaration("foreground", s.themeForeground),
      Declaration("muted-foreground", s.themeMutedForeground),
      Declaration("primary", s.themePrimary),
      Declaration("accent", s.themeAccent)]
  }

  /** The rule block between the leading newline and the trailing
      indentation of the template. */
  function Block(ds: seq<string>): (css: string)
    requires |ds| == 4
    ensures css != [] && css[0] == ':' && css[|css| - 1] == '}'
  {
    ":root {\n  " + ds[0] + "\n  " + ds[1] + "\n  " + ds[2] + "\n  " + ds[3] + "\n}"
  }

  /** The template literal as written, before `trim()`. Trimming removes
      exactly its padding: the leading newline and the trailing
      indentation. */
  function Template(settings: Option<AppSettings>): (css: string)
    ensures Trim(css) == Block(Declarations(settings))
  {
    var b := Block(Declarations(settings));
    TrimPadded("\n", b, "\n    ");
    "\n" + b + "\n    "
  }

  /** The component: the trimmed CSS, or `None` (the `null` result) when it
      holds no "--". */
  function ThemeCss(settings: Option<AppSettings>): (css: Option<string>)
    ensures css.Some? ==> Contains(css.value, "--")
  {
    var css := Trim(Template(settings));
    if Contains(css, "--") then Some(css) else None
  }

  /** Some colour is set. */
  predicate AnyColor(settings: Option<AppSettings>) {
    settings.Some? &&
      (Truthy(settings.value.themeForeground) || Truthy(settings.value.themeMutedForeground)
       || Truthy(settings.value.themePrimary) || Truthy(settings.value.themeAccent))
  }

  /** Where each declaration sits in the block. */
  lemma DeclarationAt(ds: seq<string>, k: int) returns (i: int)
    requires |ds| == 4 && 0 <= k < 4
    ensures OccursAt(Block(ds), ds[k], i)
  {
    var pre, sep, post := ":root {\n  ", "\n  ", "\n}";
    var a := [pre, pre + ds[0] + sep, pre + ds[0] + sep + ds[1] + sep, pre + ds[0] + sep + ds[1] + sep + ds[2] + sep];
    var b := [sep + ds[1] + sep + ds[2] + sep + ds[3] + post, sep + ds[2] + sep + ds[3] + post, sep + ds[3] + post, post];
    BlockAround(pre, ds[0], sep, ds[1], ds[2], ds[3], post, k);
    OccursInMiddle(a[k], ds[k], b[k]);
    i := |a[k]|;
  }

  /** The four parts of a joined text, each between what precedes it and
      what follows it. */
  lemma BlockAround(pre: string, d0: string, sep: string, d1: string, d2: string, d3: string, post: string, k: int)
    requires 0 <= k < 4
    ensures var a := [pre, pre + d0 + sep, pre + d0 + sep + d1 + sep, pre + d0 + sep + d1 + sep + d2 + sep];
      var b := [sep + d1 + sep + d2 + sep + d3 + post, sep + d2 + sep + d3 + post, sep + d3 + post, post];
      pre + d0 + sep + d1 + sep + d2 + sep + d3 + post == a[k] + [d0, d1, d2, d3][k] + b[k]
  {
  }

  /** A text occurs between what precedes it and what follows it. */
  lemma OccursInMiddle(a: string, x: string, b: string)
    ensures OccursAt(a + x + b, x, |a|)
  {
    assert (a + x + b)[|a|..|a| + |x|] == x;
  }

  /** Whatever occurs in a text has its prefixes occurring there too. */
  lemma OccursPrefix(s: string, t: string, u: string, i: int)
    requires OccursAt(s, t, i) && |u| <= |t| && t[..|u|] == u
    ensures OccursAt(s, u, i)
  {
    assert s[i..i + |u|] == s[i..i + |t|][..|u|];
  }

  /** A set colour's declaration, with the value copied verbatim, is part
      of the emitted CSS, which is then the whole block. */
  lemma SetColorEmitted(s: AppSettings, k: int)
    requires 0 <= k < 4
    requires Declarations(Some(s))[k] != ""
    ensures ThemeCss(Some(s)) == Some(Block(Declarations(Some(s))))
    ensures Contains(Block(Declarations(Some(s))), Declarations(Some(s))[k])
  {
    var ds := Declarations(Some(s));
    var css := Block(ds);
    var i := DeclarationAt(ds, k);
    DeclarationStarts(s, k);
    OccursPrefix(css, ds[k], "--", i);
    assert Contains(css, "--");
    assert Contains(css, ds[k]);
  }

  /** Every declaration written starts with "--". */
  lemma DeclarationStarts(s: AppSettings, k: int)
    requires 0 <= k < 4
    requires Declarations(Some(s))[k] != ""
    ensures |Declarations(Some(s))[k]| >= 2 && Declarations(Some(s))[k][..2] == "--"
  {
    var ds := Declarations(Some(s));
    if k == 0 {
      assert ds[0] == "--" + ("foreground: " + s.themeForeground.value + ";");
    } else if k == 1 {
      assert ds[1] == "--" + ("muted-foreground: " + s.themeMutedForeground.value + ";");
    } else if k == 2 {
      assert ds[2] == "--" + ("primary: " + s.themePrimary.value + ";");
    } else {
      assert ds[3] == "--" + ("accent: " + s.themeAccent.value + ";");
    }
  }

  /** Without any colour the block holds no '-'. */
  lemma EmptyBlock(settings: Option<AppSettings>)
    requires !AnyColor(settings)
    ensures !Contains(Block(Declarations(settings)), "--")
  {
    var ds := Declarations(settings);
    assert ds == ["", "", "", ""];
    assert Block(ds) == ":root {\n  \n  \n  \n  \n}";
    NotContains(Block(ds), "--");
  }

  /** The component renders nothing exactly when no colour is set, including
      when there are no settings. */
  lemma ThemeCssNullIff(settings: Option<AppSettings>)
    ensures ThemeCss(settings).None? <==> !AnyColor(settings)
  {
    if AnyColor(settings) {
      var s := settings.value;
      var k := if Truthy(s.themeForeground) then 0
        else if Truthy(s.themeMutedForeground) then 1
        else if Truthy(s.themePrimary) then 2 else 3;
      SetColorEmitted(s, k);
    } else {
      EmptyBlock(settings);
    }
  }

  /** The block lists the declarations in their fixed order, one per line. */
  lemma BlockJoinsDeclarations(ds: seq<string>)
    requires |ds| == 4
    ensures Block(ds) == ":root {\n  " + Join(ds, "\n  ") + "\n}"
  {
    JoinFour(ds, "\n  ");
    Regroup(":root {\n  ", ds[0], "\n  ", ds[1], ds[2], ds[3], "\n}");
  }

  /** Four parts joined with `sep` are the parts with `sep` between them. */
  lemma JoinFour(ds: seq<string>, sep: string)
    requires |ds| == 4
    ensures Join(ds, sep) == ds[0] + sep + (ds[1] + sep + (ds[2] + sep + ds[3]))
  {
    assert ds[1..][1..][1..] == [ds[3]];
    assert Join(ds[1..][1..], sep) == ds[2] + sep + ds[3];
  }

  /** Concatenation regrouped from the right to the left. */
  lemma Regroup(pre: string, a: string, sep: string, b: string, c: string, d: string, post: string)
    ensures pre + (a + sep + (b + sep + (c + sep + d))) + post
      == pre + a + sep + b + sep + c + sep + d + post
  {
  }
}
