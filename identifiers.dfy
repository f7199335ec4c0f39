/** The identifier generators: `createSlug` (src/components/product-form.tsx
    and, character for character the same, src/components/brand-form.tsx),
    `createMachineName` (src/components/custom-field-form.tsx) and the label
    shown for a stored custom-field key (src/app/admin/submissions/page.tsx). */
module Identifiers {
  import opened Text

  /** The characters `createSlug` keeps after lowercasing: `[a-z0-9\s-]`. */
  predicate IsSlugSource(c: char) {
    IsLowerAlpha(c) || IsDigit(c) || IsSpace(c) || c == '-'
  }

  /** The characters a slug is made of: `[a-z0-9-]`. */
  predicate IsSlugChar(c: char) {
    IsLowerAlpha(c) || IsDigit(c) || c == '-'
  }

  predicate IsDash(c: char) {
    c == '-'
  }

  predicate IsLowerAlnum(c: char) {
    IsLowerAlpha(c) || IsDigit(c)
  }

  /** `createSlug`: lowercase, drop everything outside `[a-z0-9\s-]`, trim,
      turn each whitespace run into '-', then each run of '-' into one '-'.
      A slug is URL-safe, `[a-z0-9-]` only, and never holds "--". */
  function CreateSlug(name: string): (slug: string)
    ensures forall i :: 0 <= i < |slug| ==> IsSlugChar(slug[i])
    ensures NoDoubles(slug, '-')
  {
    var kept := Filter(Lower(name), IsSlugSource);
    var trimmed := Trim(kept);
    TrimClass(kept, IsSlugSource);
    var dashed := CollapseRuns(trimmed, IsSpace, '-');
    CollapseRunsClass(trimmed, IsSpace, '-', IsSlugSource);
    assert forall i :: 0 <= i < |dashed| ==> IsSlugChar(dashed[i]);
    CollapseRunsClass(dashed, IsDash, '-', IsSlugChar);
    CollapseRunsNoDoubles(dashed, IsDash, '-');
    CollapseRuns(dashed, IsDash, '-')
  }

  /** A string already in slug shape is its own slug: each of the five
      steps leaves it as it is. */
  lemma {:induction false} SlugStable(s: string)
    requires forall i :: 0 <= i < |s| ==> IsSlugChar(s[i])
    requires NoDoubles(s, '-')
    ensures CreateSlug(s) == s
  {
    SlugLowerStable(s);
    SlugFilterStable(s);
    SlugTrimStable(s);
    SlugSpacesStable(s);
    SlugDashesStable(s);
  }

  lemma {:induction false} SlugLowerStable(s: string)
    requires forall i :: 0 <= i < |s| ==> IsSlugChar(s[i])
    ensures Lower(s) == s
  {
    LowerNoop(s);
  }

  lemma {:induction false} SlugFilterStable(s: string)
    requires forall i :: 0 <= i < |s| ==> IsSlugChar(s[i])
    ensures Filter(s, IsSlugSource) == s
  {
    FilterAll(s, IsSlugSource);
  }

  lemma {:induction false} SlugTrimStable(s: string)
    requires forall i :: 0 <= i < |s| ==> IsSlugChar(s[i])
    ensures Trim(s) == s
  {
    TrimNoop(s);
  }

  lemma {:induction false} SlugSpacesStable(s: string)
    requires forall i :: 0 <= i < |s| ==> IsSlugChar(s[i])
    ensures CollapseRuns(s, IsSpace, '-') == s
  {
    CollapseRunsNone(s, IsSpace, '-');
  }

  lemma {:induction false} SlugDashesStable(s: string)
    requires NoDoubles(s, '-')
    ensures CollapseRuns(s, IsDash, '-') == s
  {
    CollapseRunsFixed(s, IsDash, '-');
  }

  /** Slugifying a slug changes nothing. */
  lemma CreateSlugIdempotent(name: string)
    ensures CreateSlug(CreateSlug(name)) == CreateSlug(name)
  {
    SlugStable(CreateSlug(name));
  }

  /** The shape of every machine name: only `[a-z0-9_]`, no '_' at either end
      and never "__". */
  predicate IsMachineName(k: string) {
    && (forall i :: 0 <= i < |k| ==> IsLowerAlnum(k[i]) || k[i] == '_')
    && (k != [] ==> k[0] != '_' && k[|k| - 1] != '_')
    && NoDoubles(k, '_')
  }

  /** The characters `createMachineName` keeps after lowercasing: `[a-z0-9\s]`. */
  predicate IsMachineSource(c: char) {
    IsLowerAlnum(c) || IsSpace(c)
  }

  /** Collapsing the whitespace runs of a trimmed `[a-z0-9\s]` string into
      '_' gives a machine name. */
  lemma CollapsedIsMachineName(t: string)
    requires forall i :: 0 <= i < |t| ==> IsMachineSource(t[i])
    requires t != [] ==> !IsSpace(t[0]) && !IsSpace(t[|t| - 1])
    ensures IsMachineName(CollapseRuns(t, IsSpace, '_'))
  {
    CollapsedClass(t);
    CollapsedNoDoubles(t);
    CollapsedEnds(t);
  }

  lemma CollapsedClass(t: string)
    requires forall i :: 0 <= i < |t| ==> IsMachineSource(t[i])
    ensures var k := CollapseRuns(t, IsSpace, '_');
      forall i :: 0 <= i < |k| ==> IsLowerAlnum(k[i]) || k[i] == '_'
  {
    var k := CollapseRuns(t, IsSpace, '_');
    CollapseRunsClass(t, IsSpace, '_', IsMachineSource);
    assert DrawnFrom(k, '_', IsSpace, IsMachineSource);
  }

  lemma CollapsedNoDoubles(t: string)
    requires forall i :: 0 <= i < |t| ==> IsMachineSource(t[i])
    ensures NoDoubles(CollapseRuns(t, IsSpace, '_'), '_')
  {
    assert forall i :: 0 <= i < |t| && t[i] == '_' ==> IsSpace(t[i]);
    CollapseRunsNoDoubles(t, IsSpace, '_');
  }

  lemma CollapsedEnds(t: string)
    requires forall i :: 0 <= i < |t| ==> IsMachineSource(t[i])
    requires t != [] ==> !IsSpace(t[0]) && !IsSpace(t[|t| - 1])
    ensures var k := CollapseRuns(t, IsSpace, '_');
      k != [] ==> k[0] != '_' && k[|k| - 1] != '_'
  {
    if t != [] {
      CollapseRunsFirst(t, IsSpace, '_');
      CollapseRunsLast(t, IsSpace, '_');
      assert t[0] != '_' && t[|t| - 1] != '_';
    }
  }

  /** `createMachineName`: lowercase, drop everything outside `[a-z0-9\s]`,
      trim, turn each whitespace run into '_'. Every machine name has the
      shape `IsMachineName`. */
  function CreateMachineName(fieldLabel: string): (name: string)
    ensures IsMachineName(name)
  {
    var kept := Filter(Lower(fieldLabel), IsMachineSource);
    TrimClass(kept, IsMachineSource);
    CollapsedIsMachineName(Trim(kept));
    CollapseRuns(Trim(kept), IsSpace, '_')
  }

  /** A label without letters, digits or whitespace gives the empty name. */
  lemma {:induction false} SymbolsOnlyEmptyName(fieldLabel: string)
    requires forall i :: 0 <= i < |fieldLabel| ==> !IsMachineSource(ToLower(fieldLabel[i]))
    ensures CreateMachineName(fieldLabel) == ""
  {
    var lowered := Lower(fieldLabel);
    assert forall i :: 0 <= i < |lowered| ==> !IsMachineSource(lowered[i]);
    FilterNone(lowered, IsMachineSource);
    assert Trim([]) == [];
  }

  /** Applying `createMachineName` to a machine name keeps only its letters
      and digits: every '_' is dropped, so "order_number" becomes
      "ordernumber". */
  lemma {:induction false} CreateMachineNameTwice(k: string)
    requires IsMachineName(k)
    ensures CreateMachineName(k) == Filter(k, IsLowerAlnum)
  {
    MachineNameLowerStable(k);
    FilterAgree(k, IsMachineSource, IsLowerAlnum);
    AlnumUntouched(Filter(k, IsLowerAlnum));
  }

  lemma {:induction false} MachineNameLowerStable(k: string)
    requires IsMachineName(k)
    ensures Lower(k) == k
  {
    LowerNoop(k);
  }

  /** Trimming and collapsing leave letters and digits alone. */
  lemma {:induction false} AlnumUntouched(t: string)
    requires forall i :: 0 <= i < |t| ==> IsLowerAlnum(t[i])
    ensures CollapseRuns(Trim(t), IsSpace, '_') == t
  {
    forall i | 0 <= i < |t|
      ensures !IsSpace(t[i])
    {
      AlnumNotSpace(t[i]);
    }
    TrimNoop(t);
    CollapseRunsNone(t, IsSpace, '_');
  }

  lemma AlnumNotSpace(c: char)
    requires IsLowerAlnum(c)
    ensures !IsSpace(c)
  {
  }

  /** So `createMachineName` is idempotent exactly on names without '_'. */
  lemma CreateMachineNameIdempotentIff(fieldLabel: string)
    ensures var k := CreateMachineName(fieldLabel);
            CreateMachineName(k) == k <==> '_' !in k
  {
    MachineNameFixedIff(CreateMachineName(fieldLabel));
  }

  /** A machine name is left unchanged exactly when it has no '_'. */
  lemma MachineNameFixedIff(k: string)
    requires IsMachineName(k)
    ensures CreateMachineName(k) == k <==> '_' !in k
  {
    CreateMachineNameTwice(k);
    if '_' !in k {
      NoUnderscoreAlnum(k);
      FilterAll(k, IsLowerAlnum);
    } else {
      FilterMember(k, IsLowerAlnum, '_');
      assert '_' !in Filter(k, IsLowerAlnum);
    }
  }

  /** A machine name without '_' is letters and digits only. */
  lemma NoUnderscoreAlnum(k: string)
    requires IsMachineName(k) && '_' !in k
    ensures forall i :: 0 <= i < |k| ==> IsLowerAlnum(k[i])
  {
    forall i | 0 <= i < |k|
      ensures IsLowerAlnum(k[i])
    {
      assert k[i] in k;
    }
  }

  /** A label that is already lower-case words separated by single spaces
      gets each space replaced by '_'. */
  lemma {:induction false} SpacedMachineName(l: string)
    requires forall i :: 0 <= i < |l| ==> IsLowerAlnum(l[i]) || l[i] == ' '
    requires l != [] ==> l[0] != ' ' && l[|l| - 1] != ' '
    requires NoDoubles(l, ' ')
    ensures CreateMachineName(l) == ReplaceChar(l, ' ', '_')
  {
    SpacedLowerStable(l);
    SpacedFilterStable(l);
    TrimNoop(l);
    SpacedCollapse(l);
  }

  lemma {:induction false} SpacedLowerStable(l: string)
    requires forall i :: 0 <= i < |l| ==> IsLowerAlnum(l[i]) || l[i] == ' '
    ensures Lower(l) == l
  {
    LowerNoop(l);
  }

  lemma {:induction false} SpacedFilterStable(l: string)
    requires forall i :: 0 <= i < |l| ==> IsLowerAlnum(l[i]) || l[i] == ' '
    ensures Filter(l, IsMachineSource) == l
  {
    FilterAll(l, IsMachineSource);
  }

  lemma {:induction false} SpacedCollapse(l: string)
    requires forall i :: 0 <= i < |l| ==> IsLowerAlnum(l[i]) || l[i] == ' '
    requires NoDoubles(l, ' ')
    ensures CollapseRuns(l, IsSpace, '_') == ReplaceChar(l, ' ', '_')
  {
    forall i | 0 <= i < |l| - 1
      ensures !(IsSpace(l[i]) && IsSpace(l[i + 1]))
    {
      assert IsLowerAlnum(l[i]) || l[i] == ' ';
      assert IsLowerAlnum(l[i + 1]) || l[i + 1] == ' ';
    }
    CollapseRunsSingles(l, IsSpace, '_');
    var t := CollapseRuns(l, IsSpace, '_');
    var r := ReplaceChar(l, ' ', '_');
    forall i | 0 <= i < |l|
      ensures t[i] == r[i]
    {
      assert IsLowerAlnum(l[i]) || l[i] == ' ';
    }
  }

  /** Two lower-case words separated by a space give the words joined by
      '_' (the label "order number" gives "order_number") ... */
  lemma {:induction false} TwoWordMachineName(a: string, b: string)
    requires forall i :: 0 <= i < |a| ==> IsLowerAlnum(a[i])
    requires forall i :: 0 <= i < |b| ==> IsLowerAlnum(b[i])
    requires a != [] && b != []
    ensures CreateMachineName(a + " " + b) == a + "_" + b
  {
    TwoWordsSpaced(a, b);
    SpacedMachineName(a + " " + b);
    TwoWordsReplaced(a, b);
  }

  /** The label "Order Number" gets the name "order_number". */
  lemma OrderNumberName(fieldLabel: string)
    requires fieldLabel == "Order Number"
    ensures CreateMachineName(fieldLabel) == "order_number"
  {
    LowerOrderNumber();
    OrderNumberWords();
    TwoWordLabel(fieldLabel, "order", "number");
    OrderNumberJoined();
  }

  lemma OrderNumberJoined()
    ensures "order" + "_" + "number" == "order_number"
  {
    var j := "order" + "_" + "number";
    forall i | 0 <= i < |j|
      ensures j[i] == "order_number"[i]
    {
    }
  }

  /** A label that lowercases to two words separated by a space gets the
      words joined by '_'. */
  lemma TwoWordLabel(s: string, a: string, b: string)
    requires Lower(s) == a + " " + b
    requires forall i :: 0 <= i < |a| ==> IsLowerAlnum(a[i])
    requires forall i :: 0 <= i < |b| ==> IsLowerAlnum(b[i])
    requires a != [] && b != []
    ensures CreateMachineName(s) == a + "_" + b
  {
    MachineNameOfLowered(s);
    TwoWordMachineName(a, b);
  }

  lemma LowerOrderNumber()
    ensures Lower("Order Number") == "order number"
  {
    var r := Lower("Order Number");
    forall i | 0 <= i < |r|
      ensures r[i] == "order number"[i]
    {
    }
  }

  lemma OrderNumberWords()
    ensures "order number" == "order" + " " + "number"
    ensures forall i :: 0 <= i < |"order"| ==> IsLowerAlnum("order"[i])
    ensures forall i :: 0 <= i < |"number"| ==> IsLowerAlnum("number"[i])
  {
  }

  /** Lowercasing the label first changes nothing. */
  lemma MachineNameOfLowered(s: string)
    ensures CreateMachineName(Lower(s)) == CreateMachineName(s)
  {
    LowerNoop(Lower(s));
  }

  lemma {:induction false} TwoWordsSpaced(a: string, b: string)
    requires forall i :: 0 <= i < |a| ==> IsLowerAlnum(a[i])
    requires forall i :: 0 <= i < |b| ==> IsLowerAlnum(b[i])
    requires a != [] && b != []
    ensures var l := a + " " + b;
      && (forall i :: 0 <= i < |l| ==> IsLowerAlnum(l[i]) || l[i] == ' ')
      && l[0] != ' ' && l[|l| - 1] != ' '
      && NoDoubles(l, ' ')
  {
    var l := a + " " + b;
    forall i | 0 <= i < |l|
      ensures IsLowerAlnum(l[i]) || l[i] == ' '
      ensures l[i] == ' ' <==> i == |a|
    {
      if i > |a| {
        assert l[i] == b[i - |a| - 1];
      }
    }
    assert l[|l| - 1] == b[|b| - 1];
  }

  lemma {:induction false} TwoWordsReplaced(a: string, b: string)
    requires forall i :: 0 <= i < |a| ==> IsLowerAlnum(a[i])
    requires forall i :: 0 <= i < |b| ==> IsLowerAlnum(b[i])
    ensures ReplaceChar(a + " " + b, ' ', '_') == a + "_" + b
  {
    var l := a + " " + b;
    var k := a + "_" + b;
    var r := ReplaceChar(l, ' ', '_');
    forall i | 0 <= i < |k|
      ensures r[i] == k[i]
    {
      if i > |a| {
        assert l[i] == b[i - |a| - 1] == k[i];
      } else if i < |a| {
        assert l[i] == a[i] == k[i];
      }
    }
  }

  /** ... but that name fed back in loses its '_' ("order_number" gives
      "ordernumber"): `createMachineName` is not idempotent. */
  lemma {:induction false} TwoWordMachineNameTwice(a: string, b: string)
    requires forall i :: 0 <= i < |a| ==> IsLowerAlnum(a[i])
    requires forall i :: 0 <= i < |b| ==> IsLowerAlnum(b[i])
    requires a != [] && b != []
    ensures CreateMachineName(a + "_" + b) == a + b
    ensures a + b != a + "_" + b
  {
    JoinedIsMachineName(a, b);
    CreateMachineNameTwice(a + "_" + b);
    FilterJoined(a, b);
    assert |a + b| != |a + "_" + b|;
  }

  lemma {:induction false} JoinedIsMachineName(a: string, b: string)
    requires forall i :: 0 <= i < |a| ==> IsLowerAlnum(a[i])
    requires forall i :: 0 <= i < |b| ==> IsLowerAlnum(b[i])
    requires a != [] && b != []
    ensures IsMachineName(a + "_" + b)
  {
    var k := a + "_" + b;
    forall i | 0 <= i < |k|
      ensures IsLowerAlnum(k[i]) || k[i] == '_'
      ensures k[i] == '_' <==> i == |a|
    {
      if i > |a| {
        assert k[i] == b[i - |a| - 1];
      }
    }
    assert k[|k| - 1] == b[|b| - 1];
  }

  lemma {:induction false} FilterJoined(a: string, b: string)
    requires forall i :: 0 <= i < |a| ==> IsLowerAlnum(a[i])
    requires forall i :: 0 <= i < |b| ==> IsLowerAlnum(b[i])
    ensures Filter(a + "_" + b, IsLowerAlnum) == a + b
  {
    FilterConcat(a + "_", b, IsLowerAlnum);
    FilterConcat(a, "_", IsLowerAlnum);
    FilterAll(a, IsLowerAlnum);
    FilterAll(b, IsLowerAlnum);
    assert Filter("_", IsLowerAlnum) == [];
  }

  // -----------------------------------------------------------------------
  // The label shown for a stored custom-field key: every '_' becomes a space,
  // then the first word character after each word boundary is upper-cased.
  // -----------------------------------------------------------------------

  /** `replace(/\b\w/g, c => c.toUpperCase())`: upper-cases exactly the
      characters where `\b\w` matches; `afterWord` says whether the character
      before `s` was a word character. */
  function Capitalize(s: string, afterWord: bool): (r: string)
    ensures |r| == |s|
    ensures forall i :: 0 <= i < |s| ==> r[i] == if StartsWord(s, i, afterWord) then ToUpper(s[i]) else s[i]
  {
    if s == [] then []
    else
      var d := Capitalize(s[1..], IsWordChar(s[0]));
      CapitalizeCons(s, afterWord, d);
      [if IsWordChar(s[0]) && !afterWord then ToUpper(s[0]) else s[0]] + d
  }

  /** `\b\w` matches at `i`: a word character with no word character before it. */
  predicate StartsWord(s: string, i: int, afterWord: bool)
    requires 0 <= i < |s|
  {
    IsWordChar(s[i]) && !(if i == 0 then afterWord else IsWordChar(s[i - 1]))
  }

  /** One step of `Capitalize`: the first character is upper-cased when it
      starts a word, and the rest was done knowing what the first was. */
  lemma CapitalizeCons(s: string, afterWord: bool, d: string)
    requires s != [] && |d| == |s| - 1
    requires forall i :: 0 <= i < |d| ==>
      d[i] == if StartsWord(s[1..], i, IsWordChar(s[0])) then ToUpper(s[1..][i]) else s[1..][i]
    ensures var c := [if IsWordChar(s[0]) && !afterWord then ToUpper(s[0]) else s[0]] + d;
      forall i :: 0 <= i < |s| ==> c[i] == if StartsWord(s, i, afterWord) then ToUpper(s[i]) else s[i]
  {
    var rest := s[1..];
    var aw := IsWordChar(s[0]);
    var c := [if IsWordChar(s[0]) && !afterWord then ToUpper(s[0]) else s[0]] + d;
    forall i | 0 <= i < |s|
      ensures c[i] == if StartsWord(s, i, afterWord) then ToUpper(s[i]) else s[i]
    {
      if i > 0 {
        assert c[i] == d[i - 1];
        assert rest[i - 1] == s[i];
        assert StartsWord(rest, i - 1, aw) == StartsWord(s, i, afterWord) by {
          if i > 1 {
            assert rest[i - 2] == s[i - 1];
          }
        }
      }
    }
  }

  /** The label shown for a stored key, character for character: every '_'
      becomes a space, the character where `\b\w` then matches is
      upper-cased, and nothing else changes. */
  function PrettifyKey(key: string): (shown: string)
    ensures |shown| == |key|
    ensures forall i :: 0 <= i < |key| ==>
      shown[i] == var u := ReplaceChar(key, '_', ' '); if StartsWord(u, i, false) then ToUpper(u[i]) else u[i]
  {
    Capitalize(ReplaceChar(key, '_', ' '), false)
  }

  /** The label has a space exactly where the key has '_' or a space. */
  lemma PrettifyKeyAt(key: string)
    ensures forall i :: 0 <= i < |key| ==> (PrettifyKey(key)[i] == ' ' <==> key[i] == '_' || key[i] == ' ')
  {
    var u := ReplaceChar(key, '_', ' ');
    forall i | 0 <= i < |key|
      ensures PrettifyKey(key)[i] == ' ' <==> key[i] == '_' || key[i] == ' '
    {
      assert u[i] == ' ' <==> key[i] == '_' || key[i] == ' ';
    }
  }

  /** The label shown for a machine name leads back to that name. */
  lemma {:induction false} PrettifyKeyRoundTrip(k: string)
    requires IsMachineName(k)
    ensures CreateMachineName(PrettifyKey(k)) == k
  {
    var u := ReplaceChar(k, '_', ' ');
    PrettifyLowerBack(k);
    SpacedSource(k);
    FilterAll(u, IsMachineSource);
    assert Filter(Lower(PrettifyKey(k)), IsMachineSource) == u;
    TrimNoop(u);
    assert Trim(Filter(Lower(PrettifyKey(k)), IsMachineSource)) == u;
    SpacedBack(k);
  }

  /** The spaced name is made of kept characters and has no space at
      either end. */
  lemma SpacedSource(k: string)
    requires IsMachineName(k)
    ensures var u := ReplaceChar(k, '_', ' ');
      && (forall i :: 0 <= i < |u| ==> IsMachineSource(u[i]))
      && (u == [] || (!IsSpace(u[0]) && !IsSpace(u[|u| - 1])))
  {
    var u := ReplaceChar(k, '_', ' ');
    forall i | 0 <= i < |u|
      ensures IsMachineSource(u[i])
    {
      assert IsLowerAlnum(k[i]) || k[i] == '_';
    }
    if u != [] {
      assert IsLowerAlnum(k[0]) && IsLowerAlnum(k[|k| - 1]);
    }
  }

  /** Lowercasing the label undoes the capitals. */
  lemma {:induction false} PrettifyLowerBack(k: string)
    requires IsMachineName(k)
    ensures Lower(PrettifyKey(k)) == ReplaceChar(k, '_', ' ')
  {
    var u := ReplaceChar(k, '_', ' ');
    var shown := PrettifyKey(k);
    PrettifyKeyAt(k);
    forall i | 0 <= i < |u|
      ensures Lower(shown)[i] == u[i]
    {
      assert IsLowerAlnum(k[i]) || k[i] == '_';
      assert !IsUpperAlpha(u[i]);
    }
  }

  /** Collapsing the single spaces of the spaced name restores the '_'. */
  lemma {:induction false} SpacedBack(k: string)
    requires IsMachineName(k)
    ensures CollapseRuns(ReplaceChar(k, '_', ' '), IsSpace, '_') == k
  {
    var u := ReplaceChar(k, '_', ' ');
    forall i | 0 <= i < |u| - 1
      ensures !(IsSpace(u[i]) && IsSpace(u[i + 1]))
    {
      assert IsLowerAlnum(k[i]) || k[i] == '_';
      assert IsLowerAlnum(k[i + 1]) || k[i + 1] == '_';
    }
    CollapseRunsSingles(u, IsSpace, '_');
    var t := CollapseRuns(u, IsSpace, '_');
    forall i | 0 <= i < |k|
      ensures t[i] == k[i]
    {
      assert IsLowerAlnum(k[i]) || k[i] == '_';
    }
  }
}
