/** The entities of the storefront (src/lib/types.ts) and the small pieces of
    JavaScript value semantics the components rely on: optional fields and
    truthiness. */
module Types {

  /** A JavaScript value that may be `undefined` or `null`: both are `None`. */
  datatype Option<+T> = None | Some(value: T) {
    function GetOr(default: T): T {
      match this
      case Some(v) => v
      case None => default
    }
  }

  /** Document identifiers assigned by the store. */
  type Id = string

  /** A string field is truthy in JavaScript when it is present and non-empty. */
  predicate Truthy(s: Option<string>) {
    s.Some? && s.value != ""
  }

  /** `s || fallback` for an optional string field. */
  function OrElse(s: Option<string>, fallback: string): (r: string)
    ensures Truthy(s) ==> r == s.value
    ensures !Truthy(s) ==> r == fallback
  {
    if Truthy(s) then s.value else fallback
  }

  /** `flag !== false` for an optional boolean: only an explicit false is false. */
  predicate NotFalse(flag: Option<bool>) {
    flag != Some(false)
  }

  datatype ImagePlaceholder = ImagePlaceholder(description: string, imageUrl: string)

  datatype Specifications = Specifications(
    material: Option<string>,
    dimensions: Option<string>,
    origin: Option<string>)

  datatype Product = Product(
    id: Id,
    slug: string,
    name: string,
    description: string,
    shortDescription: string,
    price: Option<real>,
    category: string,
    brand: Option<string>,
    featured: Option<bool>,
    specifications: Specifications,
    images: seq<ImagePlaceholder>)

  /** `parentId?: string | null`: `None` is absent or null. */
  datatype Category = Category(id: Id, name: string, parentId: Option<string>)

  datatype Brand = Brand(
    id: Id,
    slug: string,
    name: string,
    description: Option<string>,
    logoUrl: Option<string>)

  datatype AppSettings = AppSettings(
    id: Id,
    whatsappNumber: string,
    aboutUsImageUrl: Option<string>,
    showHeroSection: Option<bool>,
    showProductsSection: Option<bool>,
    themeName: Option<string>,
    themeForeground: Option<string>,
    themeMutedForeground: Option<string>,
    themePrimary: Option<string>,
    themeAccent: Option<string>)

  /** `type: 'text' | 'textarea'`. */
  datatype FieldType = Text | TextArea

  datatype CustomFormField = CustomFormField(
    id: Id,
    name: string,
    labelText: string,
    fieldType: FieldType,
    required: bool)

  datatype ContactFormSubmission = ContactFormSubmission(
    id: Id,
    name: string,
    email: string,
    phone: Option<string>,
    subject: string,
    message: Option<string>,
    submissionDate: string,
    customFields: Option<map<string, string>>)
}
