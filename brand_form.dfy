/** The dialog that adds or edits a brand (src/components/brand-form.tsx).
    Whether a string is a URL is decided by the platform's URL parser, which
    the model takes as the parameter `isUrl`. */
module BrandForm {
  import opened Types
  import opened Store
  import opened Text
  import opened Identifiers

  datatype BrandValues = BrandValues(name: string, description: string, logoUrl: string)

  const NameTooShort := "Name must be at least 2 characters."
  const BadUrl := "Please enter a valid URL."

  /** The schema's messages: a name of two or more characters, and a logo
      address that is a URL or empty. */
  function BrandErrors(v: BrandValues, isUrl: string -> bool): (errors: seq<string>)
    ensures errors == [] <==> |v.name| >= 2 && (v.logoUrl == "" || isUrl(v.logoUrl))
    ensures NameTooShort in errors <==> |v.name| < 2
    ensures BadUrl in errors <==> v.logoUrl != "" && !isUrl(v.logoUrl)
  {
    (if |v.name| < 2 then [NameTooShort] else [])
    + (if v.logoUrl == "" || isUrl(v.logoUrl) then [] else [BadUrl])
  }

  /** The values the dialog opens with: missing description and logo are
      shown empty. */
  function ResetValues(editing: Option<Brand>): (v: BrandValues)
    ensures editing.None? ==> v == BrandValues("", "", "")
    ensures editing.Some? ==>
      v == BrandValues(editing.value.name, OrElse(editing.value.description, ""), OrElse(editing.value.logoUrl, ""))
  {
    match editing
    case None => BrandValues("", "", "")
    case Some(b) => BrandValues(b.name, OrElse(b.description, ""), OrElse(b.logoUrl, ""))
  }

  /** The logo preview appears for a non-empty address starting "http",
      whether or not it is a valid URL. The non-empty test adds nothing:
      the preview appears exactly when the address starts with "http". */
  predicate ShowLogoPreview(logoUrl: string)
    ensures ShowLogoPreview(logoUrl) <==> |logoUrl| >= 4 && logoUrl[..4] == "http"
  {
    logoUrl != "" && |logoUrl| >= 4 && logoUrl[..4] == "http"
  }

  /** A previewed address is never the empty one, so it is accepted exactly
      when it is a URL. */
  lemma PreviewedAddressChecked(v: BrandValues, isUrl: string -> bool)
    requires |v.name| >= 2 && ShowLogoPreview(v.logoUrl)
    ensures BrandErrors(v, isUrl) == [] <==> isUrl(v.logoUrl)
  {
  }

  datatype BrandOutcome =
    | Invalid(errors: seq<string>)
    | NotConnected
    | Updated(record: Brand)
    | Added(record: Brand)

  /** The record written: the submitted values and the slug of the name. */
  function BrandRecord(id: Id, v: BrandValues): (b: Brand)
    ensures b.id == id && b.name == v.name && b.slug == CreateSlug(v.name)
    ensures b.description == Some(v.description) && b.logoUrl == Some(v.logoUrl)
  {
    Brand(id, CreateSlug(v.name), v.name, Some(v.description), Some(v.logoUrl))
  }

  function SubmitOutcome(connected: bool, editing: Option<Brand>, v: BrandValues, newId: Id, isUrl: string -> bool)
    : (r: BrandOutcome)
    ensures r.Invalid? <==> BrandErrors(v, isUrl) != []
    ensures r.Invalid? ==> r.errors == BrandErrors(v, isUrl)
    ensures r.Updated? <==> BrandErrors(v, isUrl) == [] && connected && editing.Some?
    ensures r.Added? <==> BrandErrors(v, isUrl) == [] && connected && editing.None?
    ensures r.Updated? ==> r.record == BrandRecord(editing.value.id, v)
    ensures r.Added? ==> r.record == BrandRecord(newId, v)
  {
    var errors := BrandErrors(v, isUrl);
    if errors != [] then Invalid(errors)
    else if !connected then NotConnected
    else if editing.Some? then Updated(BrandRecord(editing.value.id, v))
    else Added(BrandRecord(newId, v))
  }

  function AfterSubmit(docs: map<Id, Brand>, r: BrandOutcome): (after: map<Id, Brand>)
    ensures (r.Updated? || r.Added?) ==> after == docs[r.record.id := r.record]
    ensures !(r.Updated? || r.Added?) ==> after == docs
  {
    match r
    case Updated(b) => docs[b.id := b]
    case Added(b) => docs[b.id := b]
    case _ => docs
  }

  /** `form.handleSubmit(onSubmit)`. */
  method SubmitBrand(db: Option<Collection<Brand>>, editing: Option<Brand>, v: BrandValues, newId: Id, isUrl: string -> bool)
    returns (r: BrandOutcome)
    requires db.Some? ==> newId !in db.value.docs
    modifies if db.Some? then {db.value} else {}
    ensures r == SubmitOutcome(db.Some?, editing, v, newId, isUrl)
    ensures db.Some? ==> db.value.docs == AfterSubmit(old(db.value.docs), r)
  {
    var errors := BrandErrors(v, isUrl);
    if errors != [] {
      return Invalid(errors);
    }
    if db.None? {
      return NotConnected;
    }
    var slug := CreateSlug(v.name);
    var record := Brand(newId, slug, v.name, Some(v.description), Some(v.logoUrl));
    if editing.Some? {
      record := record.(id := editing.value.id);
      db.value.Set(editing.value.id, record);
      r := Updated(record);
    } else {
      db.value.Add(newId, record);
      r := Added(record);
    }
  }

  /** Opening a brand whose slug matches its name, with description and logo
      present and the logo empty or a URL, and saving it unchanged writes back
      the same brand. */
  lemma EditUnchanged(b: Brand, newId: Id, isUrl: string -> bool)
    requires |b.name| >= 2 && b.slug == CreateSlug(b.name)
    requires b.description.Some? && b.logoUrl.Some?
    requires b.logoUrl.value == "" || isUrl(b.logoUrl.value)
    ensures SubmitOutcome(true, Some(b), ResetValues(Some(b)), newId, isUrl) == Updated(b)
  {
    var v := ResetValues(Some(b));
    assert v == BrandValues(b.name, b.description.value, b.logoUrl.value);
    assert BrandErrors(v, isUrl) == [];
    assert BrandRecord(b.id, v) == b;
  }

  /** Every saved brand has a URL-safe slug. */
  lemma SavedSlugShape(connected: bool, editing: Option<Brand>, v: BrandValues, newId: Id, isUrl: string -> bool)
    ensures var r := SubmitOutcome(connected, editing, v, newId, isUrl);
      (r.Updated? || r.Added?) ==>
        (forall i :: 0 <= i < |r.record.slug| ==> IsSlugChar(r.record.slug[i])) && NoDoubles(r.record.slug, '-')
  {
  }
}
