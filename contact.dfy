/** The contact-form server action (src/app/contact/actions.ts). The schema
    is the fixed contact schema extended, in list order, with one rule per
    custom field; the posted form is validated against it; a valid form is
    stored as a submission whose `customFields` are the validated values other
    than the five fixed ones. The email check, the clock and the outcome of the
    store write are parameters. */
module Contact {
  import opened Types
  import opened Text
  import opened Store

  /** The rules the schema uses. A string rule with a minimum length, an
      email rule, or an optional string. */
  datatype Rule = MinLen(min: nat, message: string) | Email(message: string) | OptionalText

  datatype Entry = Entry(key: string, rule: Rule)

  /** An object schema: its keys in order, each with its rule. */
  type Shape = seq<Entry>

  const BaseShape: Shape := [
    Entry("name", MinLen(2, "Name must be at least 2 characters.")),
    Entry("email", Email("Please enter a valid email.")),
    Entry("phone", OptionalText),
    Entry("subject", MinLen(1, "Please select a subject.")),
    Entry("message", OptionalText)]

  const BaseKeys: set<string> := {"name", "email", "phone", "subject", "message"}

  /** The message for a missing required value. */
  const RequiredMessage := "Required"

  const SuccessMessage := "Thank you for your message! We will get back to you shortly."

  /** The keys of a schema. */
  function KeySet(shape: Shape): (keys: set<string>)
    ensures shape != [] ==> shape[0].key in keys
  {
    if shape == [] then {} else {shape[0].key} + KeySet(shape[1..])
  }

  /** A key is in the schema exactly when some entry has it. */
  lemma {:induction false} KeySetMember(shape: Shape, k: string)
    ensures k in KeySet(shape) <==> exists i :: 0 <= i < |shape| && shape[i].key == k
  {
    if shape != [] {
      KeySetMember(shape[1..], k);
      if k in KeySet(shape[1..]) {
        var i :| 0 <= i < |shape[1..]| && shape[1..][i].key == k;
        assert shape[i + 1].key == k;
      }
      if exists i :: 0 <= i < |shape| && shape[i].key == k {
        var i :| 0 <= i < |shape| && shape[i].key == k;
        if i > 0 {
          assert shape[1..][i - 1].key == k;
        }
      }
    }
  }

  /** No key appears twice. */
  predicate UniqueKeys(shape: Shape) {
    shape == [] || (shape[0].key !in KeySet(shape[1..]) && UniqueKeys(shape[1..]))
  }

  /** `schema.extend({ [key]: rule })`: an existing key keeps its place and
      takes the new rule; a new key goes at the end. */
  function Extend(shape: Shape, key: string, rule: Rule): Shape
  {
    if shape == [] then [Entry(key, rule)]
    else if shape[0].key == key then [Entry(key, rule)] + shape[1..]
    else [shape[0]] + Extend(shape[1..], key, rule)
  }

  /** Extending adds the key to the schema's keys. */
  lemma {:induction false} ExtendKeys(shape: Shape, key: string, rule: Rule)
    ensures KeySet(Extend(shape, key, rule)) == KeySet(shape) + {key}
  {
    if shape != [] && shape[0].key != key {
      ExtendKeys(shape[1..], key, rule);
    }
  }

  /** A new key goes at the end. */
  lemma {:induction false} ExtendNew(shape: Shape, key: string, rule: Rule)
    requires key !in KeySet(shape)
    ensures Extend(shape, key, rule) == shape + [Entry(key, rule)]
  {
    if shape != [] {
      ExtendNew(shape[1..], key, rule);
      assert shape == [shape[0]] + shape[1..];
    }
  }

  /** The rule of a key: the first entry with that key. */
  function Lookup(shape: Shape, key: string): Option<Rule>
  {
    if shape == [] then None
    else if shape[0].key == key then Some(shape[0].rule)
    else Lookup(shape[1..], key)
  }

  /** A key has a rule exactly when it is one of the schema's keys. */
  lemma {:induction false} LookupKnown(shape: Shape, key: string)
    ensures Lookup(shape, key).Some? <==> key in KeySet(shape)
  {
    if shape != [] && shape[0].key != key {
      LookupKnown(shape[1..], key);
    }
  }

  /** Extending changes the rule of the extended key only. */
  lemma {:induction false} ExtendLookup(shape: Shape, key: string, rule: Rule, k: string)
    ensures Lookup(Extend(shape, key, rule), k) == if k == key then Some(rule) else Lookup(shape, k)
  {
    if shape != [] && shape[0].key != key {
      ExtendLookup(shape[1..], key, rule, k);
    }
  }

  /** An existing key keeps its position, and the schema keeps its size. */
  lemma {:induction false} ExtendInPlace(shape: Shape, key: string, rule: Rule, j: int)
    requires 0 <= j < |shape| && shape[j].key == key
    requires UniqueKeys(shape)
    ensures |Extend(shape, key, rule)| == |shape|
    ensures Extend(shape, key, rule) == shape[j := Entry(key, rule)]
  {
    if j > 0 {
      var tail := shape[1..];
      assert tail[j - 1].key == key;
      KeySetMember(tail, key);
      assert shape[0].key != key;
      ExtendInPlace(tail, key, rule, j - 1);
      assert Extend(shape, key, rule) == [shape[0]] + Extend(tail, key, rule);
      assert shape[j := Entry(key, rule)] == [shape[0]] + tail[j - 1 := Entry(key, rule)];
    } else {
      assert shape[0 := Entry(key, rule)] == [Entry(key, rule)] + shape[1..];
    }
  }

  /** Extending keeps keys unique. */
  lemma {:induction false} ExtendUnique(shape: Shape, key: string, rule: Rule)
    requires UniqueKeys(shape)
    ensures UniqueKeys(Extend(shape, key, rule))
  {
    var r := Extend(shape, key, rule);
    if shape == [] {
      assert r[1..] == [];
    } else if shape[0].key == key {
      assert r[1..] == shape[1..];
    } else {
      ExtendUnique(shape[1..], key, rule);
      ExtendKeys(shape[1..], key, rule);
      assert r[1..] == Extend(shape[1..], key, rule);
    }
  }

  /** The rule of a custom field. */
  function FieldRule(f: CustomFormField): (r: Rule)
    ensures f.required ==> r == MinLen(1, f.labelText + " is required.")
    ensures !f.required ==> r == OptionalText
  {
    if f.required then MinLen(1, f.labelText + " is required.") else OptionalText
  }

  /** The schema after the first `n` custom fields. */
  function ShapeOfFirst(fields: seq<CustomFormField>, n: nat): (shape: Shape)
    requires n <= |fields|
  {
    if n == 0 then BaseShape
    else Extend(ShapeOfFirst(fields, n - 1), fields[n - 1].name, FieldRule(fields[n - 1]))
  }

  /** The answers with a non-empty value among the first `n` custom fields. */
  function AnswersOfFirst(fields: seq<CustomFormField>, raw: map<string, string>, n: nat): (answers: map<string, string>)
    requires n <= |fields|
  {
    if n == 0 then map[]
    else
      var prev := AnswersOfFirst(fields, raw, n - 1);
      var k := fields[n - 1].name;
      if k in raw && raw[k] != "" then prev[k := raw[k]] else prev
  }

  /** The loop over the custom fields: extend the schema with each field's
      rule, and collect each field's non-empty posted value. */
  method BuildSchema(fields: seq<CustomFormField>, raw: map<string, string>)
    returns (shape: Shape, customFieldValues: map<string, string>)
    ensures shape == ShapeOfFirst(fields, |fields|)
    ensures customFieldValues == AnswersOfFirst(fields, raw, |fields|)
  {
    shape := BaseShape;
    customFieldValues := map[];
    var i := 0;
    while i < |fields|
      invariant 0 <= i <= |fields|
      invariant shape == ShapeOfFirst(fields, i)
      invariant customFieldValues == AnswersOfFirst(fields, raw, i)
    {
      ShapeStep(fields, i);
      AnswersStep(fields, raw, i);
      var field := fields[i];
      shape := Extend(shape, field.name, FieldRule(field));
      if field.name in raw && raw[field.name] != "" {
        customFieldValues := customFieldValues[field.name := raw[field.name]];
      }
      i := i + 1;
    }
  }

  /** One more field extends the schema with that field's rule. */
  lemma ShapeStep(fields: seq<CustomFormField>, i: nat)
    requires i < |fields|
    ensures ShapeOfFirst(fields, i + 1) == Extend(ShapeOfFirst(fields, i), fields[i].name, FieldRule(fields[i]))
  {
  }

  /** One more field adds its posted value when that value is non-empty. */
  lemma AnswersStep(fields: seq<CustomFormField>, raw: map<string, string>, i: nat)
    requires i < |fields|
    ensures var k := fields[i].name;
      AnswersOfFirst(fields, raw, i + 1) ==
        if k in raw && raw[k] != "" then AnswersOfFirst(fields, raw, i)[k := raw[k]] else AnswersOfFirst(fields, raw, i)
  {
  }

  /** The names of the first `n` custom fields. */
  function NamesOfFirst(fields: seq<CustomFormField>, n: nat): (names: set<string>)
    requires n <= |fields|
  {
    if n == 0 then {} else NamesOfFirst(fields, n - 1) + {fields[n - 1].name}
  }

  lemma {:induction false} NamesOfFirstMember(fields: seq<CustomFormField>, n: nat, k: string)
    requires n <= |fields|
    ensures k in NamesOfFirst(fields, n) <==> exists i :: 0 <= i < n && fields[i].name == k
  {
    if n > 0 {
      NamesOfFirstMember(fields, n - 1, k);
    }
  }

  /** The fixed schema has the five fixed keys, each once. */
  lemma BaseShapeKeys()
    ensures KeySet(BaseShape) == BaseKeys
    ensures UniqueKeys(BaseShape)
  {
    var s := BaseShape;
    assert s[1..][1..][1..][1..][1..] == [];
    assert KeySet(s[1..][1..][1..][1..]) == {"message"};
    assert KeySet(s[1..][1..][1..]) == {"subject", "message"};
    assert KeySet(s[1..][1..]) == {"phone", "subject", "message"};
    assert KeySet(s[1..]) == {"email", "phone", "subject", "message"};
  }

  /** The schema's keys: the five fixed ones and every field's name, each
      once. */
  lemma {:induction false} ShapeKeys(fields: seq<CustomFormField>, n: nat)
    requires n <= |fields|
    ensures KeySet(ShapeOfFirst(fields, n)) == BaseKeys + NamesOfFirst(fields, n)
    ensures UniqueKeys(ShapeOfFirst(fields, n))
  {
    ShapeKeySet(fields, n);
    ShapeUnique(fields, n);
  }

  lemma {:induction false} ShapeKeySet(fields: seq<CustomFormField>, n: nat)
    requires n <= |fields|
    ensures KeySet(ShapeOfFirst(fields, n)) == BaseKeys + NamesOfFirst(fields, n)
  {
    if n == 0 {
      BaseShapeKeys();
    } else {
      ShapeKeySet(fields, n - 1);
      ExtendKeys(ShapeOfFirst(fields, n - 1), fields[n - 1].name, FieldRule(fields[n - 1]));
    }
  }

  lemma {:induction false} ShapeUnique(fields: seq<CustomFormField>, n: nat)
    requires n <= |fields|
    ensures UniqueKeys(ShapeOfFirst(fields, n))
  {
    if n == 0 {
      BaseShapeKeys();
    } else {
      ShapeUnique(fields, n - 1);
      ExtendUnique(ShapeOfFirst(fields, n - 1), fields[n - 1].name, FieldRule(fields[n - 1]));
    }
  }

  /** The rule of a field's name is that of the last field with the name. */
  lemma {:induction false} LastFieldRuleWins(fields: seq<CustomFormField>, n: nat, i: int)
    requires 0 <= i < n <= |fields|
    requires forall j :: i < j < n ==> fields[j].name != fields[i].name
    ensures Lookup(ShapeOfFirst(fields, n), fields[i].name) == Some(FieldRule(fields[i]))
  {
    ExtendLookup(ShapeOfFirst(fields, n - 1), fields[n - 1].name, FieldRule(fields[n - 1]), fields[i].name);
    if i < n - 1 {
      LastFieldRuleWins(fields, n - 1, i);
    }
  }

  /** A fixed key no field is named after keeps its fixed rule. */
  lemma {:induction false} BaseRuleKept(fields: seq<CustomFormField>, n: nat, k: string)
    requires n <= |fields|
    requires forall j :: 0 <= j < n ==> fields[j].name != k
    ensures Lookup(ShapeOfFirst(fields, n), k) == Lookup(BaseShape, k)
  {
    if n > 0 {
      var prev := ShapeOfFirst(fields, n - 1);
      assert fields[n - 1].name != k;
      ExtendLookup(prev, fields[n - 1].name, FieldRule(fields[n - 1]), k);
      BaseRuleKept(fields, n - 1, k);
    }
  }

  /** The issues one rule raises for a posted value (`None`: not posted). */
  function RuleIssues(rule: Rule, value: Option<string>, isEmail: string -> bool): (issues: seq<string>)
    ensures |issues| <= 1
    ensures value.None? && !rule.OptionalText? ==> issues == [RequiredMessage]
    ensures rule.OptionalText? ==> issues == []
  {
    match rule
    case OptionalText => []
    case MinLen(n, message) =>
      if value.None? then [RequiredMessage] else if |value.value| < n then [message] else []
    case Email(message) =>
      if value.None? then [RequiredMessage] else if !isEmail(value.value) then [message] else []
  }

  function Posted(raw: map<string, string>, k: string): (v: Option<string>)
    ensures v.Some? <==> k in raw
    ensures v.Some? ==> v.value == raw[k]
  {
    if k in raw then Some(raw[k]) else None
  }

  /** Every issue of the schema, in the order of its entries: at most one
      per key. */
  function Issues(shape: Shape, raw: map<string, string>, isEmail: string -> bool): (issues: seq<string>)
    ensures |issues| <= |shape|
  {
    if shape == [] then []
    else RuleIssues(shape[0].rule, Posted(raw, shape[0].key), isEmail) + Issues(shape[1..], raw, isEmail)
  }

  /** The form is valid exactly when every key's rule accepts its value, and
      every message a rule raises is among the issues. */
  lemma {:induction false} IssuesAt(shape: Shape, raw: map<string, string>, isEmail: string -> bool)
    ensures Issues(shape, raw, isEmail) == [] <==>
      forall i :: 0 <= i < |shape| ==> RuleIssues(shape[i].rule, Posted(raw, shape[i].key), isEmail) == []
    ensures forall i, m :: 0 <= i < |shape| && m in RuleIssues(shape[i].rule, Posted(raw, shape[i].key), isEmail) ==>
      m in Issues(shape, raw, isEmail)
  {
    if shape != [] {
      IssuesAt(shape[1..], raw, isEmail);
      assert forall i :: 1 <= i < |shape| ==> shape[i] == shape[1..][i - 1];
    }
  }

  /** Every message of the rule a key looks up is among the issues. */
  lemma {:induction false} LookupIssue(shape: Shape, raw: map<string, string>, isEmail: string -> bool, k: string, m: string)
    requires Lookup(shape, k).Some?
    requires m in RuleIssues(Lookup(shape, k).value, Posted(raw, k), isEmail)
    ensures m in Issues(shape, raw, isEmail)
  {
    if shape[0].key != k {
      LookupIssue(shape[1..], raw, isEmail, k, m);
    }
  }

  /** So a valid form satisfies the rule of every key. */
  lemma LookupAccepts(shape: Shape, raw: map<string, string>, isEmail: string -> bool, k: string)
    requires Lookup(shape, k).Some?
    requires Issues(shape, raw, isEmail) == []
    ensures RuleIssues(Lookup(shape, k).value, Posted(raw, k), isEmail) == []
  {
    var issues := RuleIssues(Lookup(shape, k).value, Posted(raw, k), isEmail);
    if issues != [] {
      LookupIssue(shape, raw, isEmail, k, issues[0]);
      assert false;
    }
  }

  // ---------------------------------------------------------------------
  // Key order: zod validates the keys of `Object.keys(shape)`
  // ---------------------------------------------------------------------

  /** The value of a string of decimal digits. */
  function DecimalValue(s: string): nat
    requires forall i :: 0 <= i < |s| ==> IsDigit(s[i])
  {
    if s == [] then 0
    else
      assert IsDigit(s[|s| - 1]);
      DecimalValue(s[..|s| - 1]) * 10 + (s[|s| - 1] as int - '0' as int)
  }

  /** A key JavaScript treats as an array index: the canonical decimal form
      of an integer below 2^32 - 1. An object enumerates such keys before
      all others. */
  predicate IsArrayIndex(k: string) {
    && k != []
    && (forall i :: 0 <= i < |k| ==> IsDigit(k[i]))
    && (k[0] != '0' || |k| == 1)
    && DecimalValue(k) < 0xFFFF_FFFF
  }

  predicate IsIndexEntry(e: Entry) {
    IsArrayIndex(e.key)
  }

  predicate IsNamedEntry(e: Entry) {
    !IsArrayIndex(e.key)
  }

  /** The numeric value an index key is ordered by. */
  function IndexValue(e: Entry): nat {
    if IsArrayIndex(e.key) then DecimalValue(e.key) else 0
  }

  predicate Ascending(s: Shape) {
    forall i, j :: 0 <= i < j < |s| ==> IndexValue(s[i]) <= IndexValue(s[j])
  }

  function InsertByIndex(e: Entry, sorted: Shape): Shape
  {
    if sorted == [] || IndexValue(e) <= IndexValue(sorted[0]) then [e] + sorted
    else [sorted[0]] + InsertByIndex(e, sorted[1..])
  }

  function SortByIndex(s: Shape): Shape
  {
    if s == [] then [] else InsertByIndex(s[0], SortByIndex(s[1..]))
  }

  /** `Object.keys(shape)`: the index keys in ascending order, then the
      other keys in the order they were added. */
  function KeyOrder(shape: Shape): Shape
  {
    SortByIndex(Filter(shape, IsIndexEntry)) + Filter(shape, IsNamedEntry)
  }

  lemma {:induction false} InsertPermutes(e: Entry, sorted: Shape)
    ensures multiset(InsertByIndex(e, sorted)) == multiset(sorted) + multiset{e}
  {
    if sorted != [] && IndexValue(e) > IndexValue(sorted[0]) {
      InsertPermutes(e, sorted[1..]);
      assert sorted == [sorted[0]] + sorted[1..];
    }
  }

  /** An entry no larger than any entry of an ascending list can lead it. */
  lemma AscendingCons(x: Entry, t: Shape)
    requires Ascending(t)
    requires forall k :: 0 <= k < |t| ==> IndexValue(x) <= IndexValue(t[k])
    ensures Ascending([x] + t)
  {
    forall i, j | 0 <= i < j < |[x] + t|
      ensures IndexValue(([x] + t)[i]) <= IndexValue(([x] + t)[j])
    {
      assert ([x] + t)[j] == t[j - 1];
      if i > 0 {
        assert ([x] + t)[i] == t[i - 1];
      }
    }
  }

  lemma {:induction false} InsertAscending(e: Entry, sorted: Shape)
    requires Ascending(sorted)
    ensures Ascending(InsertByIndex(e, sorted))
  {
    if sorted != [] && IndexValue(e) > IndexValue(sorted[0]) {
      var tail := InsertByIndex(e, sorted[1..]);
      InsertAscending(e, sorted[1..]);
      InsertPermutes(e, sorted[1..]);
      forall k | 0 <= k < |tail|
        ensures IndexValue(sorted[0]) <= IndexValue(tail[k])
      {
        assert tail[k] in multiset(tail);
        if tail[k] != e {
          assert tail[k] in multiset(sorted[1..]);
          var j :| 0 <= j < |sorted[1..]| && sorted[1..][j] == tail[k];
          assert sorted[j + 1] == tail[k];
        }
      }
      AscendingCons(sorted[0], tail);
    } else {
      forall k | 0 <= k < |sorted|
        ensures IndexValue(e) <= IndexValue(sorted[k])
      {
      }
      AscendingCons(e, sorted);
    }
  }

  /** Sorting reorders the entries and nothing else. */
  lemma {:induction false} SortPermutes(s: Shape)
    ensures multiset(SortByIndex(s)) == multiset(s)
  {
    if s != [] {
      SortPermutes(s[1..]);
      InsertPermutes(s[0], SortByIndex(s[1..]));
      assert s == [s[0]] + s[1..];
    }
  }

  /** Sorting leaves the entries in ascending order. */
  lemma {:induction false} SortAscending(s: Shape)
    ensures Ascending(SortByIndex(s))
  {
    if s != [] {
      SortAscending(s[1..]);
      InsertAscending(s[0], SortByIndex(s[1..]));
    }
  }

  /** Splitting by a condition and its negation loses nothing. */
  lemma {:induction false} FilterPartition(s: Shape)
    ensures multiset(Filter(s, IsIndexEntry)) + multiset(Filter(s, IsNamedEntry)) == multiset(s)
  {
    if s != [] {
      FilterPartition(s[1..]);
      assert multiset(s) == multiset{s[0]} + multiset(s[1..]) by {
        assert s == [s[0]] + s[1..];
      }
      if IsIndexEntry(s[0]) {
        assert Filter(s, IsIndexEntry) == [s[0]] + Filter(s[1..], IsIndexEntry);
        assert Filter(s, IsNamedEntry) == Filter(s[1..], IsNamedEntry);
      } else {
        assert Filter(s, IsIndexEntry) == Filter(s[1..], IsIndexEntry);
        assert Filter(s, IsNamedEntry) == [s[0]] + Filter(s[1..], IsNamedEntry);
      }
    }
  }

  /** The key order is a permutation of the schema's entries. */
  lemma KeyOrderPermutes(shape: Shape)
    ensures multiset(KeyOrder(shape)) == multiset(shape)
  {
    SortPermutes(Filter(shape, IsIndexEntry));
    FilterPartition(shape);
  }

  /** Index keys come first, in ascending order. */
  lemma KeyOrderIndexFirst(shape: Shape)
    ensures var r := KeyOrder(shape);
      forall i, j :: 0 <= i < j < |r| && IsIndexEntry(r[j]) ==>
        IsIndexEntry(r[i]) && IndexValue(r[i]) <= IndexValue(r[j])
  {
    var idx := Filter(shape, IsIndexEntry);
    var sorted := SortByIndex(idx);
    var named := Filter(shape, IsNamedEntry);
    var r := KeyOrder(shape);
    SortPermutes(idx);
    SortAscending(idx);
    forall i | 0 <= i < |sorted|
      ensures IsIndexEntry(sorted[i])
    {
      assert sorted[i] in multiset(idx);
      FilterMember(shape, IsIndexEntry, sorted[i]);
    }
    forall i, j | 0 <= i < j < |r| && IsIndexEntry(r[j])
      ensures IsIndexEntry(r[i]) && IndexValue(r[i]) <= IndexValue(r[j])
    {
      assert r[i] == sorted[i] && r[j] == sorted[j];
    }
  }

  /** The other keys keep the order they were added in. */
  lemma KeyOrderKeepsNamed(shape: Shape)
    ensures Filter(KeyOrder(shape), IsNamedEntry) == Filter(shape, IsNamedEntry)
  {
    var idx := Filter(shape, IsIndexEntry);
    var sorted := SortByIndex(idx);
    var named := Filter(shape, IsNamedEntry);
    SortPermutes(idx);
    forall i | 0 <= i < |sorted|
      ensures !IsNamedEntry(sorted[i])
    {
      assert sorted[i] in multiset(idx);
      FilterMember(shape, IsIndexEntry, sorted[i]);
    }
    FilterConcat(sorted, named, IsNamedEntry);
    FilterNone(sorted, IsNamedEntry);
    FilterAll(named, IsNamedEntry);
  }

  /** Without index keys the order is the order the keys were added in. */
  lemma KeyOrderNoIndex(shape: Shape)
    requires forall i :: 0 <= i < |shape| ==> !IsArrayIndex(shape[i].key)
    ensures KeyOrder(shape) == shape
  {
    FilterNone(shape, IsIndexEntry);
    FilterAll(shape, IsNamedEntry);
  }

  /** The messages one entry raises. */
  function EntryIssues(e: Entry, raw: map<string, string>, isEmail: string -> bool): seq<string>
  {
    RuleIssues(e.rule, Posted(raw, e.key), isEmail)
  }

  lemma {:induction false} IssuesConcat(a: Shape, b: Shape, raw: map<string, string>, isEmail: string -> bool)
    ensures Issues(a + b, raw, isEmail) == Issues(a, raw, isEmail) + Issues(b, raw, isEmail)
  {
    if a != [] {
      assert (a + b)[1..] == a[1..] + b;
      IssuesConcat(a[1..], b, raw, isEmail);
    } else {
      assert a + b == b;
    }
  }

  /** Taking one entry out of a sequence takes it out of its multiset. */
  lemma RemoveAt(t: Shape, k: int)
    requires 0 <= k < |t|
    ensures multiset(t[..k] + t[k + 1..]) == multiset(t) - multiset{t[k]}
  {
    assert t == t[..k] + [t[k]] + t[k + 1..];
  }

  /** The messages of a sequence are those of one entry and of the rest. */
  lemma IssuesAround(t: Shape, k: int, raw: map<string, string>, isEmail: string -> bool)
    requires 0 <= k < |t|
    ensures multiset(Issues(t, raw, isEmail)) ==
      multiset(EntryIssues(t[k], raw, isEmail)) + multiset(Issues(t[..k] + t[k + 1..], raw, isEmail))
  {
    assert t == t[..k] + [t[k]] + t[k + 1..];
    IssuesConcat(t[..k] + [t[k]], t[k + 1..], raw, isEmail);
    IssuesConcat(t[..k], [t[k]], raw, isEmail);
    IssuesConcat(t[..k], t[k + 1..], raw, isEmail);
    assert Issues([t[k]], raw, isEmail) == EntryIssues(t[k], raw, isEmail) + [];
  }

  /** Reordering the entries reorders the messages: the same messages, each
      as often. */
  lemma {:induction false} IssuesPermute(s: Shape, t: Shape, raw: map<string, string>, isEmail: string -> bool)
    requires multiset(s) == multiset(t)
    ensures multiset(Issues(s, raw, isEmail)) == multiset(Issues(t, raw, isEmail))
    decreases |s|
  {
    if s == [] {
      assert |t| == |multiset(t)| == 0;
    } else {
      assert s[0] in multiset(t);
      var k :| 0 <= k < |t| && t[k] == s[0];
      var rest := t[..k] + t[k + 1..];
      RemoveAt(t, k);
      assert s == [s[0]] + s[1..];
      assert multiset(s[1..]) == multiset(s) - multiset{s[0]};
      IssuesPermute(s[1..], rest, raw, isEmail);
      IssuesAround(t, k, raw, isEmail);
    }
  }

  /** The messages in key order are those of the schema, reordered. */
  lemma KeyOrderIssues(shape: Shape, raw: map<string, string>, isEmail: string -> bool)
    ensures multiset(Issues(KeyOrder(shape), raw, isEmail)) == multiset(Issues(shape, raw, isEmail))
  {
    KeyOrderPermutes(shape);
    IssuesPermute(KeyOrder(shape), shape, raw, isEmail);
  }

  /** The parsed data: the posted value of every key of the schema that was
      posted; other posted keys are dropped. */
  function ParsedData(shape: Shape, raw: map<string, string>): (data: map<string, string>)
    ensures forall k :: k in data <==> k in KeySet(shape) && k in raw
    ensures forall k :: k in data ==> data[k] == raw[k]
  {
    map k | k in KeySet(shape) && k in raw :: raw[k]
  }

  datatype Status = Success | Error | Idle

  datatype FormState = FormState(message: string, status: Status)

  /** What the store write throws: an `Error` with a message, or some other
      value. */
  datatype Thrown = ErrorWithMessage(message: string) | NotAnError

  const Unexpected := "An unexpected error occurred."
  const TryAgain := "An unexpected error occurred. Please try again. "

  /** The message shown when the write throws: the apology, then the
      error's own message, or the generic one when the thrown value is not
      an `Error`. */
  function FailureMessage(t: Thrown): (message: string)
    ensures |message| >= |TryAgain| && message[..|TryAgain|] == TryAgain
    ensures message[|TryAgain|..] == if t.ErrorWithMessage? then t.message else Unexpected
  {
    var detail := if t.ErrorWithMessage? then t.message else Unexpected;
    TryAgain + detail
  }

  /** `const { name, email, phone, subject, message, ...rest } = data`:
      the rest is everything but the five fixed keys. */
  function Rest(data: map<string, string>): (rest: map<string, string>)
    ensures forall k :: k in rest <==> k in data && k !in BaseKeys
    ensures forall k :: k in rest ==> rest[k] == data[k]
  {
    map k | k in data && k !in BaseKeys :: data[k]
  }

  /** The submission stored for valid data. */
  function SubmissionOf(data: map<string, string>, newId: Id, now: string): (s: ContactFormSubmission)
    ensures s.id == newId && s.submissionDate == now && s.customFields == Some(Rest(data))
    ensures s.phone == Posted(data, "phone") && s.message == Posted(data, "message")
  {
    ContactFormSubmission(newId, Posted(data, "name").GetOr(""), Posted(data, "email").GetOr(""),
      Posted(data, "phone"), Posted(data, "subject").GetOr(""), Posted(data, "message"), now, Some(Rest(data)))
  }

  /** `submitContactForm`. `fields` are the custom fields as the store lists
      them, `raw` the posted form, `newId` the id the store hands out, `now`
      the submission time in ISO form, and `thrown` what the store write
      throws, if anything. The error text lists the messages in the order
      zod checks the keys, `KeyOrder`. */
  method SubmitContactForm(
    fields: seq<CustomFormField>, raw: map<string, string>, db: Collection<ContactFormSubmission>,
    newId: Id, now: string, isEmail: string -> bool, thrown: Option<Thrown>)
    returns (state: FormState)
    requires newId !in db.docs
    modifies db
    ensures var shape := ShapeOfFirst(fields, |fields|);
      var issues := Issues(KeyOrder(shape), raw, isEmail);
      && (issues != [] ==> state == FormState(Join(issues, ", "), Error) && db.docs == old(db.docs))
      && (issues == [] && thrown.Some? ==>
            state == FormState(FailureMessage(thrown.value), Error) && db.docs == old(db.docs))
      && (issues == [] && thrown.None? ==>
            state == FormState(SuccessMessage, Success)
            && db.docs == old(db.docs)[newId := SubmissionOf(ParsedData(shape, raw), newId, now)])
  {
    var shape, customFieldValues := BuildSchema(fields, raw);
    var issues := Issues(KeyOrder(shape), raw, isEmail);
    if issues != [] {
      return FormState(Join(issues, ", "), Error);
    }
    var data := ParsedData(shape, raw);
    if thrown.Some? {
      return FormState(FailureMessage(thrown.value), Error);
    }
    db.Add(newId, SubmissionOf(data, newId, now));
    state := FormState(SuccessMessage, Success);
  }

  /** A required custom field posted empty (or not at all) is reported with
      its own message (or the generic one), and that message is part of the
      error text, unless a later field reuses the name. */
  lemma RequiredFieldReported(fields: seq<CustomFormField>, raw: map<string, string>, isEmail: string -> bool, i: int)
    requires 0 <= i < |fields| && fields[i].required
    requires forall j :: i < j < |fields| ==> fields[j].name != fields[i].name
    requires fields[i].name !in raw || raw[fields[i].name] == ""
    ensures var issues := Issues(KeyOrder(ShapeOfFirst(fields, |fields|)), raw, isEmail);
      var expected := if fields[i].name in raw then fields[i].labelText + " is required." else RequiredMessage;
      expected in issues && Contains(Join(issues, ", "), expected)
  {
    var shape := ShapeOfFirst(fields, |fields|);
    var f := fields[i];
    LastFieldRuleWins(fields, |fields|, i);
    var expected := if f.name in raw then f.labelText + " is required." else RequiredMessage;
    assert RuleIssues(FieldRule(f), Posted(raw, f.name), isEmail) == [expected];
    LookupIssue(shape, raw, isEmail, f.name, expected);
    KeyOrderIssues(shape, raw, isEmail);
    var issues := Issues(KeyOrder(shape), raw, isEmail);
    assert expected in multiset(issues);
    var k :| 0 <= k < |issues| && issues[k] == expected;
    JoinContains(issues, ", ", k);
  }

  const IndexFieldEntry := Entry("10", MinLen(1, "10 is required."))

  /** A required field named "10" is added at the end of the schema. */
  lemma IndexFieldShape(id: Id)
    ensures ShapeOfFirst([CustomFormField(id, "10", "10", Text, true)], 1) == BaseShape + [IndexFieldEntry]
  {
    var fields := [CustomFormField(id, "10", "10", Text, true)];
    BaseShapeKeys();
    assert "10" !in BaseKeys;
    assert FieldRule(fields[0]) == IndexFieldEntry.rule by {
      assert "10" + " is required." == "10 is required.";
    }
    assert ShapeOfFirst(fields, 0) == BaseShape;
    ExtendNew(BaseShape, "10", IndexFieldEntry.rule);
  }

  /** An index key added after keys that are not is checked first. */
  lemma IndexEntryFirst(shape: Shape, e: Entry)
    requires forall i :: 0 <= i < |shape| ==> !IsArrayIndex(shape[i].key)
    requires IsArrayIndex(e.key)
    ensures KeyOrder(shape + [e]) == [e] + shape
  {
    assert Filter([e], IsIndexEntry) == [e];
    assert Filter([e], IsNamedEntry) == [];
    FilterNone(shape, IsIndexEntry);
    FilterAll(shape, IsNamedEntry);
    FilterConcat(shape, [e], IsIndexEntry);
    FilterConcat(shape, [e], IsNamedEntry);
    assert Filter(shape + [e], IsIndexEntry) == [e];
    assert Filter(shape + [e], IsNamedEntry) == shape;
    assert [e][1..] == [];
    assert SortByIndex([e]) == [e];
  }

  lemma TenIsIndex()
    ensures IsArrayIndex("10")
  {
    var ten := "10";
    assert ten[..1] == "1";
    assert "1"[..0] == "";
    assert DecimalValue(ten) == 10;
  }

  /** None of the fixed keys is an index key. */
  lemma BaseKeysNamed()
    ensures forall i :: 0 <= i < |BaseShape| ==> !IsArrayIndex(BaseShape[i].key)
  {
    forall i | 0 <= i < |BaseShape|
      ensures !IsArrayIndex(BaseShape[i].key)
    {
      assert !IsDigit(BaseShape[i].key[0]);
    }
  }

  /** The messages of a five-key schema whose third and fifth keys are
      optional: those of the first, second and fourth keys, in that order. */
  lemma FiveKeyIssues(b: Shape, raw: map<string, string>, isEmail: string -> bool)
    requires |b| == 5 && b[2].rule.OptionalText? && b[4].rule.OptionalText?
    ensures Issues(b, raw, isEmail) ==
      EntryIssues(b[0], raw, isEmail) + EntryIssues(b[1], raw, isEmail) + EntryIssues(b[3], raw, isEmail)
  {
    assert Issues(b[4..], raw, isEmail) == [] by { assert b[4..][1..] == []; }
    assert Issues(b[3..], raw, isEmail) == EntryIssues(b[3], raw, isEmail) by {
      assert b[3..][1..] == b[4..];
    }
    assert Issues(b[2..], raw, isEmail) == Issues(b[3..], raw, isEmail) by {
      assert b[2..][1..] == b[3..];
    }
    assert Issues(b[1..], raw, isEmail) == EntryIssues(b[1], raw, isEmail) + Issues(b[2..], raw, isEmail) by {
      assert b[1..][1..] == b[2..];
    }
  }

  /** With a one-character name, a valid email and a subject, a blank
      required field named "10" is reported before the name. */
  lemma IndexKeyIssues(id: Id, raw: map<string, string>, isEmail: string -> bool)
    requires "10" in raw && raw["10"] == ""
    requires "name" in raw && |raw["name"]| == 1
    requires "email" in raw && isEmail(raw["email"])
    requires "subject" in raw && raw["subject"] != ""
    ensures var fields := [CustomFormField(id, "10", "10", Text, true)];
      Issues(KeyOrder(ShapeOfFirst(fields, 1)), raw, isEmail)
        == ["10 is required.", "Name must be at least 2 characters."]
  {
    IndexFieldShape(id);
    TenIsIndex();
    BaseKeysNamed();
    IndexEntryFirst(BaseShape, IndexFieldEntry);
    IssuesConcat([IndexFieldEntry], BaseShape, raw, isEmail);
    assert Issues([IndexFieldEntry], raw, isEmail) == ["10 is required."];
    FiveKeyIssues(BaseShape, raw, isEmail);
    assert EntryIssues(BaseShape[0], raw, isEmail) == ["Name must be at least 2 characters."];
    assert EntryIssues(BaseShape[1], raw, isEmail) == [];
    assert EntryIssues(BaseShape[3], raw, isEmail) == [];
  }

  /** A custom field named "10" is an index key: its message comes before
      the name's in the error text, although it was added after the name. */
  lemma IndexKeyReportedFirst(id: Id, address: string, isEmail: string -> bool)
    requires isEmail(address)
    ensures var fields := [CustomFormField(id, "10", "10", Text, true)];
      var raw := map["name" := "a", "email" := address, "subject" := "s", "10" := ""];
      Join(Issues(KeyOrder(ShapeOfFirst(fields, 1)), raw, isEmail), ", ")
        == "10 is required." + ", " + "Name must be at least 2 characters."
  {
    var raw := map["name" := "a", "email" := address, "subject" := "s", "10" := ""];
    IndexKeyIssues(id, raw, isEmail);
    JoinTwo("10 is required.", "Name must be at least 2 characters.", ", ");
  }

  /** A valid form has a name of two characters, a valid email and a
      subject, when no custom field takes over those keys. */
  lemma ValidNeedsNameEmailSubject(fields: seq<CustomFormField>, raw: map<string, string>, isEmail: string -> bool)
    requires forall j :: 0 <= j < |fields| ==> fields[j].name != "name" && fields[j].name != "subject" && fields[j].name != "email"
    requires Issues(KeyOrder(ShapeOfFirst(fields, |fields|)), raw, isEmail) == []
    ensures "name" in raw && |raw["name"]| >= 2
    ensures "subject" in raw && |raw["subject"]| >= 1
    ensures "email" in raw && isEmail(raw["email"])
  {
    var shape := ShapeOfFirst(fields, |fields|);
    KeyOrderIssues(shape, raw, isEmail);
    assert |multiset(Issues(shape, raw, isEmail))| == 0;
    BaseRuleKept(fields, |fields|, "name");
    BaseRuleKept(fields, |fields|, "subject");
    BaseRuleKept(fields, |fields|, "email");
    assert Lookup(BaseShape, "name") == Some(MinLen(2, "Name must be at least 2 characters."));
    assert Lookup(BaseShape, "email") == Some(Email("Please enter a valid email."));
    assert Lookup(BaseShape, "subject") == Some(MinLen(1, "Please select a subject."));
    LookupAccepts(shape, raw, isEmail, "name");
    LookupAccepts(shape, raw, isEmail, "subject");
    LookupAccepts(shape, raw, isEmail, "email");
  }

  /** A custom field named like a fixed key replaces that key's rule in
      place: a required custom field named "phone" makes the phone number
      required, and the schema does not grow. */
  lemma CustomFieldOverridesBase(fields: seq<CustomFormField>, i: int)
    requires 0 <= i < |fields| && fields[i].name in BaseKeys
    requires forall j :: i < j < |fields| ==> fields[j].name != fields[i].name
    ensures Lookup(ShapeOfFirst(fields, |fields|), fields[i].name) == Some(FieldRule(fields[i]))
    ensures |ShapeOfFirst(fields, |fields|)| == |BaseShape| + |NamesOfFirst(fields, |fields|) - BaseKeys|
  {
    LastFieldRuleWins(fields, |fields|, i);
    ShapeLength(fields, |fields|);
  }

  /** The schema has one entry per distinct key. */
  lemma ShapeLength(fields: seq<CustomFormField>, n: nat)
    requires n <= |fields|
    ensures |ShapeOfFirst(fields, n)| == |BaseShape| + |NamesOfFirst(fields, n) - BaseKeys|
  {
    var shape := ShapeOfFirst(fields, n);
    var extra := NamesOfFirst(fields, n) - BaseKeys;
    ShapeKeys(fields, n);
    UniqueKeysCount(shape);
    KeysSplit(NamesOfFirst(fields, n));
  }

  /** The fixed keys and the other names are counted apart. */
  lemma KeysSplit(names: set<string>)
    ensures |BaseKeys + names| == |BaseShape| + |names - BaseKeys|
  {
    var extra := names - BaseKeys;
    assert BaseKeys + names == BaseKeys + extra;
    assert BaseKeys * extra == {};
    assert |BaseKeys| == 5;
  }

  /** A schema with unique keys has as many entries as keys. */
  lemma {:induction false} UniqueKeysCount(shape: Shape)
    requires UniqueKeys(shape)
    ensures |KeySet(shape)| == |shape|
  {
    if shape != [] {
      UniqueKeysCount(shape[1..]);
    }
  }

  /** The stored custom answers are every posted value of a custom field not
      named like a fixed key: blank answers to optional fields included. */
  lemma StoredCustomFields(fields: seq<CustomFormField>, raw: map<string, string>, k: string)
    ensures var rest := Rest(ParsedData(ShapeOfFirst(fields, |fields|), raw));
      k in rest <==> k in raw && k !in BaseKeys && exists i :: 0 <= i < |fields| && fields[i].name == k
    ensures var rest := Rest(ParsedData(ShapeOfFirst(fields, |fields|), raw));
      k in rest ==> rest[k] == raw[k]
  {
    ShapeKeys(fields, |fields|);
    NamesOfFirstMember(fields, |fields|, k);
  }

  /** The collected non-empty answers are exactly the posted non-empty
      values of the custom fields. */
  lemma {:induction false} AnswersClosed(fields: seq<CustomFormField>, raw: map<string, string>, n: nat, k: string)
    requires n <= |fields|
    ensures var answers := AnswersOfFirst(fields, raw, n);
      (k in answers <==> k in raw && raw[k] != "" && exists i :: 0 <= i < n && fields[i].name == k)
      && (k in answers ==> answers[k] == raw[k])
  {
    if n > 0 {
      AnswersClosed(fields, raw, n - 1, k);
    }
  }

  /** The collected answers are never used: the stored answers hold every
      one of them not named like a fixed key, and also the blank answers the
      collection leaves out. */
  lemma CollectedAnswersWithinStored(fields: seq<CustomFormField>, raw: map<string, string>, k: string)
    ensures var answers := AnswersOfFirst(fields, raw, |fields|);
      var rest := Rest(ParsedData(ShapeOfFirst(fields, |fields|), raw));
      && (k in answers && k !in BaseKeys ==> k in rest && rest[k] == answers[k])
      && (k in rest && raw[k] == "" ==> k !in answers)
  {
    AnswersClosed(fields, raw, |fields|, k);
    StoredCustomFields(fields, raw, k);
  }
}
