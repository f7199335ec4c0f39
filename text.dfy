/** The JavaScript string primitives the components use: the regular
    expression character classes `\s`, `\d`, `\w`, case mapping, `filter`,
    `trim`, global `replace` of a run pattern, `split` and `join`. */
module Text {

  // ---------------------------------------------------------------------
  // Character classes
  // ---------------------------------------------------------------------

  /** JavaScript `\s` (WhiteSpace and LineTerminator), which is also the set
      `String.prototype.trim` removes. */
  predicate IsSpace(c: char) {
    c == ' ' || c == '\t' || c == '\n' || c == '\U{000B}' || c == '\U{000C}' || c == '\r'
    || c == '\U{00A0}' || c == '\U{1680}' || ('\U{2000}' <= c <= '\U{200A}')
    || c == '\U{2028}' || c == '\U{2029}' || c == '\U{202F}' || c == '\U{205F}'
    || c == '\U{3000}' || c == '\U{FEFF}'
  }

  /** JavaScript `\d` without the `u` flag: ASCII digits only. */
  predicate IsDigit(c: char) {
    '0' <= c <= '9'
  }

  predicate IsLowerAlpha(c: char) {
    'a' <= c <= 'z'
  }

  predicate IsUpperAlpha(c: char) {
    'A' <= c <= 'Z'
  }

  /** JavaScript `\w`: `[A-Za-z0-9_]`. */
  predicate IsWordChar(c: char) {
    IsLowerAlpha(c) || IsUpperAlpha(c) || IsDigit(c) || c == '_'
  }

  /** `toLowerCase` on one character, for the ASCII range. */
  function ToLower(c: char): (r: char)
    ensures IsUpperAlpha(c) ==> IsLowerAlpha(r)
    ensures !IsUpperAlpha(c) ==> r == c
  {
    if IsUpperAlpha(c) then (c as int - 'A' as int + 'a' as int) as char else c
  }

  /** `toUpperCase` on one character, for the ASCII range. */
  function ToUpper(c: char): (r: char)
    ensures IsLowerAlpha(c) ==> IsUpperAlpha(r) && ToLower(r) == c
    ensures !IsLowerAlpha(c) ==> r == c
  {
    if IsLowerAlpha(c) then (c as int - 'a' as int + 'A' as int) as char else c
  }

  /** `s.toLowerCase()`, character by character. */
  function Lower(s: string): (r: string)
    ensures |r| == |s|
    ensures forall i :: 0 <= i < |s| ==> r[i] == ToLower(s[i])
  {
    seq(|s|, i requires 0 <= i < |s| => ToLower(s[i]))
  }

  // ---------------------------------------------------------------------
  // Filtering (Array.prototype.filter, and `replace(/[^...]/g, '')`)
  // ---------------------------------------------------------------------

  /** Lowercasing a string without upper-case letters changes nothing. */
  lemma LowerNoop(s: string)
    requires forall i :: 0 <= i < |s| ==> !IsUpperAlpha(s[i])
    ensures Lower(s) == s
  {
  }

  function Filter<T>(s: seq<T>, keep: T -> bool): (r: seq<T>)
    ensures |r| <= |s|
    ensures forall i :: 0 <= i < |r| ==> keep(r[i])
  {
    if s == [] then [] else (if keep(s[0]) then [s[0]] else []) + Filter(s[1..], keep)
  }

  /** An element survives filtering exactly when it is in the input and
      meets the condition. */
  lemma {:induction false} FilterMember<T>(s: seq<T>, keep: T -> bool, x: T)
    ensures x in Filter(s, keep) <==> x in s && keep(x)
  {
    if s != [] {
      FilterMember(s[1..], keep, x);
      assert s == [s[0]] + s[1..];
    }
  }

  /** Filtering keeps the relative order: it distributes over concatenation. */
  lemma {:induction false} FilterConcat<T>(a: seq<T>, b: seq<T>, keep: T -> bool)
    ensures Filter(a + b, keep) == Filter(a, keep) + Filter(b, keep)
  {
    if a == [] {
      assert a + b == b;
    } else {
      assert (a + b)[1..] == a[1..] + b;
      FilterConcat(a[1..], b, keep);
    }
  }

  /** Two conditions that agree on every element filter alike. */
  lemma {:induction false} FilterAgree<T>(s: seq<T>, f: T -> bool, g: T -> bool)
    requires forall i :: 0 <= i < |s| ==> f(s[i]) == g(s[i])
    ensures Filter(s, f) == Filter(s, g)
  {
    if s != [] {
      FilterAgree(s[1..], f, g);
    }
  }

  /** Filtering with a condition no element meets leaves nothing. */
  lemma {:induction false} FilterNone<T>(s: seq<T>, keep: T -> bool)
    requires forall i :: 0 <= i < |s| ==> !keep(s[i])
    ensures Filter(s, keep) == []
  {
    if s != [] {
      FilterNone(s[1..], keep);
    }
  }

  /** Filtering with a condition every element meets changes nothing. */
  lemma {:induction false} FilterAll<T>(s: seq<T>, keep: T -> bool)
    requires forall i :: 0 <= i < |s| ==> keep(s[i])
    ensures Filter(s, keep) == s
  {
    if s != [] {
      FilterAll(s[1..], keep);
    }
  }

  // ---------------------------------------------------------------------
  // trim()
  // ---------------------------------------------------------------------

  /** Drops the longest prefix whose characters all satisfy `p`. */
  function DropWhile(s: string, p: char -> bool): (r: string)
    ensures |r| <= |s| && r == s[|s| - |r|..]
    ensures r == [] || !p(r[0])
    ensures forall i :: 0 <= i < |s| - |r| ==> p(s[i])
  {
    if s != [] && p(s[0]) then
      var r := DropWhile(s[1..], p);
      assert forall i :: 0 < i < |s| ==> s[i] == s[1..][i - 1];
      r
    else s
  }

  /** The dropped prefix does not reach a last character outside `p`. */
  lemma {:induction false} DropWhileKeepsLast(s: string, p: char -> bool)
    requires s != [] && !p(s[|s| - 1])
    ensures DropWhile(s, p) != [] && DropWhile(s, p)[|DropWhile(s, p)| - 1] == s[|s| - 1]
  {
    if p(s[0]) {
      DropWhileKeepsLast(s[1..], p);
    }
  }

  function TrimStart(s: string): (r: string)
  {
    DropWhile(s, IsSpace)
  }

  function TrimEnd(s: string): (r: string)
    ensures |r| <= |s| && r == s[..|r|]
    ensures r == [] || !IsSpace(r[|r| - 1])
    ensures forall i :: |r| <= i < |s| ==> IsSpace(s[i])
  {
    if s != [] && IsSpace(s[|s| - 1]) then TrimEnd(s[..|s| - 1]) else s
  }

  /** `r` is the slice of `s` starting at `k`, and everything outside that
      slice is whitespace. */
  predicate TrimmedAt(s: string, r: string, k: int) {
    0 <= k <= |s| - |r| && r == s[k..k + |r|]
    && (forall i :: 0 <= i < k ==> IsSpace(s[i]))
    && (forall i :: k + |r| <= i < |s| ==> IsSpace(s[i]))
  }

  /** `s.trim()`: a contiguous slice of `s` with no whitespace at either end,
      and everything cut off is whitespace. */
  function Trim(s: string): (r: string)
    ensures exists k :: TrimmedAt(s, r, k)
    ensures r != [] ==> !IsSpace(r[0]) && !IsSpace(r[|r| - 1])
  {
    TrimSlice(s);
    TrimEnd(TrimStart(s))
  }

  /** Trimming both ends takes the slice after the leading whitespace,
      cut before the trailing whitespace. */
  lemma TrimSlice(s: string)
    ensures var r := TrimEnd(TrimStart(s));
      && TrimmedAt(s, r, |s| - |TrimStart(s)|)
      && (r != [] ==> !IsSpace(r[0]))
  {
    var t := TrimStart(s);
    var r := TrimEnd(t);
    TrimmedOfParts(s, t, r);
    assert r != [] ==> r[0] == t[0];
  }

  /** Cutting whitespace off the front of `s`, giving `t`, and then off the
      back of `t`, giving `r`, leaves `r` trimmed out of `s`. */
  lemma TrimmedOfParts(s: string, t: string, r: string)
    requires |t| <= |s| && t == s[|s| - |t|..]
    requires forall i :: 0 <= i < |s| - |t| ==> IsSpace(s[i])
    requires |r| <= |t| && r == t[..|r|]
    requires forall i :: |r| <= i < |t| ==> IsSpace(t[i])
    ensures TrimmedAt(s, r, |s| - |t|)
  {
    var k := |s| - |t|;
    assert r == s[k..k + |r|];
    forall i | k + |r| <= i < |s|
      ensures IsSpace(s[i])
    {
      assert s[i] == t[i - k];
    }
  }

  /** Trimming keeps only characters of the input, so it keeps any class of
      characters the input is drawn from. */
  lemma TrimClass(s: string, q: char -> bool)
    requires forall i :: 0 <= i < |s| ==> q(s[i])
    ensures forall i :: 0 <= i < |Trim(s)| ==> q(Trim(s)[i])
  {
    var t := TrimStart(s);
    var r := TrimEnd(t);
    forall i | 0 <= i < |r|
      ensures q(r[i])
    {
      assert r[i] == t[i] == s[|s| - |t| + i];
    }
  }

  /** Trimming a string with no whitespace at either end changes nothing. */
  lemma TrimNoop(s: string)
    requires s == [] || (!IsSpace(s[0]) && !IsSpace(s[|s| - 1]))
    ensures Trim(s) == s
  {
  }

  /** A prefix of `p`-characters before a non-`p` character is dropped whole. */
  lemma {:induction false} DropWhilePrefix(a: string, x: string, p: char -> bool)
    requires forall i :: 0 <= i < |a| ==> p(a[i])
    requires x != [] && !p(x[0])
    ensures DropWhile(a + x, p) == x
  {
    if a != [] {
      assert (a + x)[1..] == a[1..] + x;
      DropWhilePrefix(a[1..], x, p);
    } else {
      assert a + x == x;
    }
  }

  /** Trailing whitespace after a non-whitespace character is cut whole. */
  lemma {:induction false} TrimEndSuffix(x: string, b: string)
    requires forall i :: 0 <= i < |b| ==> IsSpace(b[i])
    requires x != [] && !IsSpace(x[|x| - 1])
    ensures TrimEnd(x + b) == x
  {
    if b != [] {
      assert (x + b)[..|x + b| - 1] == x + b[..|b| - 1];
      TrimEndSuffix(x, b[..|b| - 1]);
    } else {
      assert x + b == x;
    }
  }

  /** Trimming a text padded with whitespace gives back the text. */
  lemma TrimPadded(a: string, x: string, b: string)
    requires forall i :: 0 <= i < |a| ==> IsSpace(a[i])
    requires forall i :: 0 <= i < |b| ==> IsSpace(b[i])
    requires x != [] && !IsSpace(x[0]) && !IsSpace(x[|x| - 1])
    ensures Trim(a + x + b) == x
  {
    assert a + x + b == a + (x + b);
    DropWhilePrefix(a, x + b, IsSpace);
    TrimEndSuffix(x, b);
  }

  // ---------------------------------------------------------------------
  // replace(/x+/g, r): every maximal run of characters satisfying p becomes r
  // ---------------------------------------------------------------------

  function CollapseRuns(s: string, p: char -> bool, r: char): (t: string)
    ensures |t| <= |s|
  {
    if s == [] then []
    else if p(s[0]) then [r] + CollapseRuns(DropWhile(s, p), p, r)
    else [s[0]] + CollapseRuns(s[1..], p, r)
  }

  /** Every output character is the replacement or an input character outside
      `p`; so the output is drawn from the input's class `q` plus `r`. */
  lemma {:induction false} CollapseRunsClass(s: string, p: char -> bool, r: char, q: char -> bool)
    requires forall i :: 0 <= i < |s| ==> q(s[i])
    ensures DrawnFrom(CollapseRuns(s, p, r), r, p, q)
  {
    if s != [] {
      var rest := if p(s[0]) then DropWhile(s, p) else s[1..];
      assert rest == s[|s| - |rest|..];
      SuffixClass(s, |s| - |rest|, q);
      CollapseRunsClass(rest, p, r, q);
      assert q(s[0]);
      ConsClass(if p(s[0]) then r else s[0], CollapseRuns(rest, p, r), p, r, q);
    }
  }

  /** A suffix is drawn from any class the whole string is drawn from. */
  lemma SuffixClass(s: string, k: nat, q: char -> bool)
    requires k <= |s|
    requires forall i :: 0 <= i < |s| ==> q(s[i])
    ensures forall i :: 0 <= i < |s[k..]| ==> q(s[k..][i])
  {
    forall i | 0 <= i < |s[k..]|
      ensures q(s[k..][i])
    {
      assert s[k..][i] == s[k + i];
    }
  }

  /** Every character of `t` is `r`, or is in class `q` and outside `p`. */
  predicate DrawnFrom(t: string, r: char, p: char -> bool, q: char -> bool) {
    forall i :: 0 <= i < |t| ==> t[i] == r || (q(t[i]) && !p(t[i]))
  }

  lemma ConsClass(c: char, t: string, p: char -> bool, r: char, q: char -> bool)
    requires c == r || (q(c) && !p(c))
    requires DrawnFrom(t, r, p, q)
    ensures DrawnFrom([c] + t, r, p, q)
  {
    var u := [c] + t;
    forall i | 0 <= i < |u|
      ensures u[i] == r || (q(u[i]) && !p(u[i]))
    {
      if i > 0 {
        assert u[i] == t[i - 1];
      }
    }
  }

  /** `r` never appears twice in a row in `t`. */
  predicate NoDoubles(t: string, r: char) {
    forall i :: 0 <= i < |t| - 1 ==> !(t[i] == r && t[i + 1] == r)
  }

  lemma NoDoublesCons(c: char, t: string, r: char)
    requires NoDoubles(t, r)
    requires t == [] || c != r || t[0] != r
    ensures NoDoubles([c] + t, r)
  {
    var u := [c] + t;
    forall i | 0 <= i < |u| - 1
      ensures !(u[i] == r && u[i + 1] == r)
    {
      if i > 0 {
        assert u[i] == t[i - 1] && u[i + 1] == t[i];
      }
    }
  }

  /** The replacement character never appears twice in a row, provided it
      occurs in the input only where `p` holds. */
  lemma {:induction false} CollapseRunsNoDoubles(s: string, p: char -> bool, r: char)
    requires forall i :: 0 <= i < |s| && s[i] == r ==> p(s[i])
    ensures NoDoubles(CollapseRuns(s, p, r), r)
  {
    if s != [] {
      if p(s[0]) {
        var d := DropWhile(s, p);
        forall i | 0 <= i < |d| && d[i] == r
          ensures p(d[i])
        {
          assert d[i] == s[|s| - |d| + i];
        }
        CollapseRunsNoDoubles(d, p, r);
        if d != [] {
          CollapseRunsFirst(d, p, r);
          assert d[0] == s[|s| - |d|];
        }
        NoDoublesCons(r, CollapseRuns(d, p, r), r);
      } else {
        assert s[0] != r;
        CollapseRunsNoDoubles(s[1..], p, r);
        NoDoublesCons(s[0], CollapseRuns(s[1..], p, r), r);
      }
    }
  }

  /** A leading character outside `p` is kept. */
  lemma CollapseRunsFirst(s: string, p: char -> bool, r: char)
    requires s != [] && !p(s[0])
    ensures CollapseRuns(s, p, r) != [] && CollapseRuns(s, p, r)[0] == s[0]
  {
  }

  /** A trailing character outside `p` is kept. */
  lemma {:induction false} CollapseRunsLast(s: string, p: char -> bool, r: char)
    requires s != [] && !p(s[|s| - 1])
    ensures var t := CollapseRuns(s, p, r); t != [] && t[|t| - 1] == s[|s| - 1]
  {
    if p(s[0]) {
      DropWhileKeepsLast(s, p);
      CollapseRunsLast(DropWhile(s, p), p, r);
    } else if |s| > 1 {
      CollapseRunsLast(s[1..], p, r);
    }
  }

  /** When runs are single characters, collapsing replaces each of them in
      place. */
  lemma {:induction false} CollapseRunsSingles(s: string, p: char -> bool, r: char)
    requires forall i :: 0 <= i < |s| - 1 ==> !(p(s[i]) && p(s[i + 1]))
    ensures var t := CollapseRuns(s, p, r);
            |t| == |s| && forall i :: 0 <= i < |s| ==> t[i] == if p(s[i]) then r else s[i]
  {
    if s != [] {
      var u := CollapseRuns(s[1..], p, r);
      CollapseRunsSingles(s[1..], p, r);
      if p(s[0]) {
        assert s[1..] == [] || !p(s[1..][0]);
        assert DropWhile(s, p) == s[1..];
      }
      var t := CollapseRuns(s, p, r);
      assert t == [if p(s[0]) then r else s[0]] + u;
      forall i | 0 < i < |s|
        ensures t[i] == if p(s[i]) then r else s[i]
      {
        assert t[i] == u[i - 1] && s[1..][i - 1] == s[i];
      }
    }
  }

  /** Without any character satisfying `p` there is nothing to collapse. */
  lemma CollapseRunsNone(s: string, p: char -> bool, r: char)
    requires forall i :: 0 <= i < |s| ==> !p(s[i])
    ensures CollapseRuns(s, p, r) == s
  {
    CollapseRunsSingles(s, p, r);
  }

  /** Runs of length one that are already the replacement stay as they are. */
  lemma {:induction false} CollapseRunsFixed(s: string, p: char -> bool, r: char)
    requires forall i :: 0 <= i < |s| - 1 ==> !(p(s[i]) && p(s[i + 1]))
    requires forall i :: 0 <= i < |s| && p(s[i]) ==> s[i] == r
    ensures CollapseRuns(s, p, r) == s
  {
    CollapseRunsSingles(s, p, r);
  }

  /** `s.replace(/a/g, b)` for a single character `a`. */
  function ReplaceChar(s: string, a: char, b: char): (r: string)
    ensures |r| == |s|
    ensures forall i :: 0 <= i < |s| ==> r[i] == if s[i] == a then b else s[i]
  {
    seq(|s|, i requires 0 <= i < |s| => if s[i] == a then b else s[i])
  }

  // ---------------------------------------------------------------------
  // split(sep), join(sep), includes(t)
  // ---------------------------------------------------------------------

  function Occurrences(s: string, c: char): nat
  {
    if s == [] then 0 else (if s[0] == c then 1 else 0) + Occurrences(s[1..], c)
  }

  /** Occurrences add up over a concatenation. */
  lemma {:induction false} OccurrencesConcat(a: string, b: string, c: char)
    ensures Occurrences(a + b, c) == Occurrences(a, c) + Occurrences(b, c)
  {
    if a != [] {
      OccurrencesConcat(a[1..], b, c);
      assert (a + b)[1..] == a[1..] + b;
    } else {
      assert a + b == b;
    }
  }

  /** A string without `c` has no occurrence of it. */
  lemma {:induction false} OccurrencesNone(s: string, c: char)
    requires c !in s
    ensures Occurrences(s, c) == 0
  {
    if s != [] {
      OccurrencesNone(s[1..], c);
    }
  }

  /** `s.split(sep)` for a one-character separator. */
  function Split(s: string, sep: char): (parts: seq<string>)
    ensures |parts| == Occurrences(s, sep) + 1
    ensures forall k :: 0 <= k < |parts| ==> sep !in parts[k]
  {
    if s == [] then [[]]
    else
      var rest := Split(s[1..], sep);
      if s[0] == sep then [[]] + rest else [[s[0]] + rest[0]] + rest[1..]
  }

  /** `parts.join(sep)`. */
  function Join(parts: seq<string>, sep: string): string
  {
    if |parts| == 0 then []
    else if |parts| == 1 then parts[0]
    else parts[0] + sep + Join(parts[1..], sep)
  }

  /** Two parts are joined by one separator. */
  lemma JoinTwo(a: string, b: string, sep: string)
    ensures Join([a, b], sep) == a + sep + b
  {
    assert [a, b][1..] == [b];
  }

  /** Splitting and re-joining on the same character gives back the input. */
  lemma {:induction false} JoinSplit(s: string, sep: char)
    ensures Join(Split(s, sep), [sep]) == s
  {
    if s != [] {
      var rest := Split(s[1..], sep);
      JoinSplit(s[1..], sep);
      if s[0] == sep {
        assert Split(s, sep) == [[]] + rest;
        assert ([[]] + rest)[1..] == rest;
      } else {
        var parts := [[s[0]] + rest[0]] + rest[1..];
        if |rest| == 1 {
          assert Join(rest, [sep]) == rest[0];
        } else {
          assert Join(rest, [sep]) == rest[0] + [sep] + Join(rest[1..], [sep]);
          assert parts[1..] == rest[1..];
        }
      }
    }
  }

  /** Splitting a string free of the separator yields the string itself. */
  lemma {:induction false} SplitNone(s: string, sep: char)
    requires sep !in s
    ensures Split(s, sep) == [s]
  {
    if s != [] {
      SplitNone(s[1..], sep);
      assert [s[0]] + s[1..] == s;
    }
  }

  /** `t` occurs in `s` at position `i`. */
  predicate OccursAt(s: string, t: string, i: int) {
    0 <= i <= |s| - |t| && s[i..i + |t|] == t
  }

  /** `s.includes(t)`. */
  predicate Contains(s: string, t: string) {
    exists i :: 0 <= i <= |s| && OccursAt(s, t, i)
  }

  /** A string without the first character of `t` does not contain `t`. */
  lemma NotContains(s: string, t: string)
    requires t != [] && t[0] !in s
    ensures !Contains(s, t)
  {
    forall i | 0 <= i <= |s| - |t|
      ensures !OccursAt(s, t, i)
    {
      assert s[i..i + |t|][0] == s[i];
    }
  }

  /** A string contains whatever occurs in a part of it. */
  lemma OccursShift(a: string, s: string, t: string, i: int)
    requires OccursAt(s, t, i)
    ensures OccursAt(a + s, t, |a| + i)
  {
    assert (a + s)[|a| + i..|a| + i + |t|] == s[i..i + |t|];
  }

  /** `parts.join(sep)` contains every part. */
  lemma {:induction false} JoinContains(parts: seq<string>, sep: string, k: int)
    requires 0 <= k < |parts|
    ensures Contains(Join(parts, sep), parts[k])
  {
    var joined := Join(parts, sep);
    if k == 0 {
      assert joined[..|parts[0]|] == parts[0];
      assert OccursAt(joined, parts[0], 0);
    } else {
      JoinContains(parts[1..], sep, k - 1);
      var rest := Join(parts[1..], sep);
      var i :| 0 <= i <= |rest| && OccursAt(rest, parts[k], i);
      OccursShift(parts[0] + sep, rest, parts[k], i);
      assert joined == parts[0] + sep + rest;
      assert OccursAt(joined, parts[k], |parts[0] + sep| + i);
    }
  }
}
