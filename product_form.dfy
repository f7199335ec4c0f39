/** The dialog that adds or edits a product (src/components/product-form.tsx):
    the schema's messages, the values the dialog opens with, and the record
    written, whose slug is derived from the name on every save. */
module ProductForm {
  import opened Types
  import opened Store
  import opened Identifiers

  /** The price input after number coercion: the empty string, a finite
      number, or text that coerces to no number. */
  datatype PriceInput = Blank | Amount(amount: real) | NotANumber

  datatype ProductValues = ProductValues(
    name: string,
    price: PriceInput,
    category: string,
    brand: string,
    featured: bool,
    shortDescription: string,
    description: string,
    specifications: Specifications,
    images: seq<ImagePlaceholder>)

  /** Where a message is shown. */
  datatype FieldPath =
    | NameField | PriceField | CategoryField | ShortDescriptionField | DescriptionField
    | ImagesField | ImageUrlField(index: nat) | ImageDescriptionField(index: nat)

  datatype Issue = Issue(path: FieldPath, message: string)

  /** The price rule: a positive number, or the empty string. Zero or a
      negative number gets the rule's own message; text that is no number
      gets the union's generic message. */
  function PriceIssues(p: PriceInput): (issues: seq<Issue>)
    ensures issues == [] <==> p.Blank? || (p.Amount? && p.amount > 0.0)
    ensures |issues| <= 1
  {
    match p
    case Blank => []
    case Amount(x) => if x > 0.0 then [] else [Issue(PriceField, "Price must be a positive number.")]
    case NotANumber => [Issue(PriceField, "Invalid input")]
  }

  /** An image needs a path and a description. */
  predicate ImageOk(img: ImagePlaceholder) {
    |img.imageUrl| >= 1 && |img.description| >= 1
  }

  /** The messages of the images from position `start` on, in order. */
  function ImageIssues(images: seq<ImagePlaceholder>, start: nat): (issues: seq<Issue>)
    ensures issues == [] <==> forall i :: 0 <= i < |images| ==> ImageOk(images[i])
    ensures forall k :: 0 <= k < |issues| ==>
      (issues[k].path.ImageUrlField? || issues[k].path.ImageDescriptionField?)
      && start <= issues[k].path.index < start + |images|
  {
    if images == [] then []
    else
      var img := images[0];
      (if |img.imageUrl| < 1 then [Issue(ImageUrlField(start), "Please enter a valid image path.")] else [])
      + (if |img.description| < 1 then [Issue(ImageDescriptionField(start), "Description is required.")] else [])
      + ImageIssues(images[1..], start + 1)
  }

  /** A minimum-length rule: its message, when the length is short. */
  function AtLeast(path: FieldPath, length: nat, min: nat, message: string): (issues: seq<Issue>)
    ensures issues == [] <==> length >= min
    ensures issues != [] ==> issues == [Issue(path, message)]
  {
    if length < min then [Issue(path, message)] else []
  }

  /** Every message of the schema, in the order of its keys; none exactly
      when every rule holds. */
  function ProductIssues(v: ProductValues): (issues: seq<Issue>)
    ensures issues == [] <==> ProductValid(v)
  {
    AtLeast(NameField, |v.name|, 2, "Name must be at least 2 characters.")
    + PriceIssues(v.price)
    + AtLeast(CategoryField, |v.category|, 1, "Please select a category.")
    + AtLeast(ShortDescriptionField, |v.shortDescription|, 10, "Short description must be at least 10 characters.")
    + AtLeast(DescriptionField, |v.description|, 20, "Description must be at least 20 characters.")
    + AtLeast(ImagesField, |v.images|, 1, "At least one image is required.")
    + ImageIssues(v.images, 0)
  }

  /** The form is accepted exactly when every rule holds. */
  predicate ProductValid(v: ProductValues) {
    && |v.name| >= 2
    && (v.price.Blank? || (v.price.Amount? && v.price.amount > 0.0))
    && |v.category| >= 1
    && |v.shortDescription| >= 10
    && |v.description| >= 20
    && |v.images| >= 1
    && forall i :: 0 <= i < |v.images| ==> ImageOk(v.images[i])
  }

  /** The values a new product starts from: everything blank and one blank
      image row. */
  const BlankValues := ProductValues("", Blank, "", "", false, "", "",
    Specifications(Some(""), Some(""), Some("")), [ImagePlaceholder("", "")])

  /** A blank form shows six messages: name, category, both descriptions,
      and the image row's path and description; the blank price is
      accepted. */
  lemma BlankFormIssues()
    ensures ProductIssues(BlankValues) == [
      Issue(NameField, "Name must be at least 2 characters."),
      Issue(CategoryField, "Please select a category."),
      Issue(ShortDescriptionField, "Short description must be at least 10 characters."),
      Issue(DescriptionField, "Description must be at least 20 characters."),
      Issue(ImageUrlField(0), "Please enter a valid image path."),
      Issue(ImageDescriptionField(0), "Description is required.")]
  {
    var images := BlankValues.images;
    assert images[1..] == [];
    assert ImageIssues(images, 0) == [
      Issue(ImageUrlField(0), "Please enter a valid image path."),
      Issue(ImageDescriptionField(0), "Description is required.")];
  }

  /** The dialog's values: the product's own in edit mode, with a missing
      or zero price shown blank, a missing brand shown empty and a missing
      featured flag shown off. */
  function ResetValues(editing: Option<Product>): (v: ProductValues)
    ensures editing.None? ==> v == BlankValues
    ensures editing.Some? ==>
      var p := editing.value;
      && v.price == (if p.price.Some? && p.price.value != 0.0 then Amount(p.price.value) else Blank)
      && v.brand == OrElse(p.brand, "")
      && v.featured == (p.featured == Some(true))
      && v.name == p.name && v.category == p.category && v.images == p.images
  {
    match editing
    case None => BlankValues
    case Some(p) =>
      ProductValues(
        p.name,
        if p.price.Some? && p.price.value != 0.0 then Amount(p.price.value) else Blank,
        p.category,
        OrElse(p.brand, ""),
        p.featured == Some(true),
        p.shortDescription,
        p.description,
        p.specifications,
        p.images)
  }

  /** The stored price: a blank price is stored as no price. */
  function StoredPrice(p: PriceInput): (price: Option<real>)
    requires !p.NotANumber?
    ensures p.Blank? <==> price.None?
    ensures p.Amount? ==> price == Some(p.amount)
  {
    if p.Amount? then Some(p.amount) else None
  }

  /** The record written: the accepted values with the slug of the name. */
  function ProductRecord(id: Id, v: ProductValues): (r: Product)
    requires ProductValid(v)
    ensures r.id == id && r.slug == CreateSlug(v.name) && r.name == v.name
    ensures r.price == StoredPrice(v.price) && r.brand == Some(v.brand) && r.featured == Some(v.featured)
  {
    Product(id, CreateSlug(v.name), v.name, v.description, v.shortDescription, StoredPrice(v.price),
      v.category, Some(v.brand), Some(v.featured), v.specifications, v.images)
  }

  datatype ProductOutcome =
    | Invalid(issues: seq<Issue>)
    | NotConnected
    | Updated(record: Product)
    | Added(record: Product)

  /** The schema first; then, with a store connection, overwrite the product
      being edited or add a new one under `newId`. */
  function SubmitOutcome(connected: bool, editing: Option<Product>, v: ProductValues, newId: Id): (r: ProductOutcome)
    ensures r.Invalid? <==> !ProductValid(v)
    ensures r.Invalid? ==> r.issues == ProductIssues(v) && r.issues != []
    ensures r.Updated? <==> ProductValid(v) && connected && editing.Some?
    ensures r.Added? <==> ProductValid(v) && connected && editing.None?
    ensures r.Updated? ==> r.record == ProductRecord(editing.value.id, v)
    ensures r.Added? ==> r.record == ProductRecord(newId, v)
  {
    if !ProductValid(v) then Invalid(ProductIssues(v))
    else if !connected then NotConnected
    else if editing.Some? then Updated(ProductRecord(editing.value.id, v))
    else Added(ProductRecord(newId, v))
  }

  function AfterSubmit(docs: map<Id, Product>, r: ProductOutcome): (after: map<Id, Product>)
    ensures (r.Updated? || r.Added?) ==> after == docs[r.record.id := r.record]
    ensures !(r.Updated? || r.Added?) ==> after == docs
  {
    match r
    case Updated(p) => docs[p.id := p]
    case Added(p) => docs[p.id := p]
    case _ => docs
  }

  /** `form.handleSubmit(onSubmit)`. */
  method SubmitProduct(db: Option<Collection<Product>>, editing: Option<Product>, v: ProductValues, newId: Id)
    returns (r: ProductOutcome)
    requires db.Some? ==> newId !in db.value.docs
    modifies if db.Some? then {db.value} else {}
    ensures r == SubmitOutcome(db.Some?, editing, v, newId)
    ensures db.Some? ==> db.value.docs == AfterSubmit(old(db.value.docs), r)
  {
    var issues := ProductIssues(v);
    if issues != [] {
      return Invalid(issues);
    }
    if db.None? {
      return NotConnected;
    }
    var slug := CreateSlug(v.name);
    var record := Product(newId, slug, v.name, v.description, v.shortDescription, StoredPrice(v.price),
      v.category, Some(v.brand), Some(v.featured), v.specifications, v.images);
    if editing.Some? {
      record := record.(id := editing.value.id);
      db.value.Set(editing.value.id, record);
      r := Updated(record);
    } else {
      db.value.Add(newId, record);
      r := Added(record);
    }
  }

  /** Every saved product has a URL-safe slug that slugifying again leaves
      unchanged. */
  lemma SavedSlugShape(connected: bool, editing: Option<Product>, v: ProductValues, newId: Id)
    ensures var r := SubmitOutcome(connected, editing, v, newId);
      (r.Updated? || r.Added?) ==>
        && (forall i :: 0 <= i < |r.record.slug| ==> IsSlugChar(r.record.slug[i]))
        && CreateSlug(r.record.slug) == r.record.slug
  {
    CreateSlugIdempotent(v.name);
  }

  /** Opening a stored product whose fields already satisfy the schema and
      saving it unchanged writes back the same product. */
  lemma EditUnchanged(p: Product, newId: Id)
    requires p.slug == CreateSlug(p.name)
    requires p.price.None? || p.price.value > 0.0
    requires p.brand.Some? && p.featured.Some?
    requires ProductValid(ResetValues(Some(p)))
    ensures SubmitOutcome(true, Some(p), ResetValues(Some(p)), newId) == Updated(p)
  {
    var v := ResetValues(Some(p));
    assert StoredPrice(v.price) == p.price;
    assert Some(v.brand) == p.brand;
    assert Some(v.featured) == p.featured by {
      if p.featured.value {
        assert p.featured == Some(true);
      } else {
        assert p.featured != Some(true);
      }
    }
    assert ProductRecord(p.id, v) == p;
  }

  /** Saving rewrites the slug from the name, so renaming a product changes
      its address. */
  lemma RenameMovesSlug(p: Product, v: ProductValues, newId: Id)
    requires ProductValid(v)
    ensures SubmitOutcome(true, Some(p), v, newId).record.slug == CreateSlug(v.name)
  {
  }
}
