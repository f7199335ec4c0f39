# CrockeryHub storefront rules in Dafny

CrockeryHub is a storefront with an admin back office. Products,
categories, brands, custom contact-form fields, contact submissions and the
site settings live in a hosted document store. The storefront's logic is a
set of small rules spread over its components. This project models those
rules and proves what they guarantee:

- the category tree the site header builds from the flat category list;
- the guards on categories: the delete guard, the self-parent check and the
  parents offered for a category;
- the identifier generators: `createSlug`, `createMachineName` and the label
  the submissions page makes from a stored key;
- the forms for categories, custom fields, products and brands. For each:
  its schema, the values it opens with, and the record it writes;
- the contact-form server action, whose schema grows by one rule per custom
  field;
- the settings page: the HSL colour rule, the WhatsApp number rule, loading
  with defaults, the colour reset, the save, and the input guards of the
  colour converters;
- the theme style element, the category picture map, the featured products
  and section switches of the home page, and the admin route guard.

One module per source file. Shared pieces sit in `types.dfy` (the entities
of `src/lib/types.ts` and JavaScript truthiness), `text.dfy` (the string
operations the components use) and `store.dfy` (one store collection, a
class whose `docs` map the forms change through `Add`, `Set` and `Delete`).

Code that updates state step by step is modelled imperatively:
- the two passes of the tree builder, as loops over maps;
- the contact action's schema-building loop;
- the category picture loop;
- the delete handlers, as classes holding the page's state;
- the settings form, as a class.

Each of these methods is proved against a function that specifies it.
Everything else is modelled as functions, with lemmas about them.

Other behaviour the proofs bring out:

- A submission's `customFields` holds every posted value of a schema key
  other than the five fixed ones. That includes blank answers to optional
  fields and excludes custom fields named like a fixed key
  (`Contact.StoredCustomFields`).
- The `customFieldValues` map the action collects is never used
  (`Contact.CollectedAnswersWithinStored`).
- `createMachineName` is not idempotent. Fed back its own output it drops
  every '_' (`Identifiers.CreateMachineNameIdempotentIff`,
  `Identifiers.TwoWordMachineNameTwice`).
- The contact action's error text lists the messages of keys that look like
  array indices ("10") first, in ascending order, before the fixed keys,
  because the schema checks its keys in JavaScript property order
  (`Contact.KeyOrder`, `Contact.IndexKeyReportedFirst`).
- A custom field named like a fixed key ("phone") replaces that key's rule
  in place (`Contact.CustomFieldOverridesBase`).
- A label made only of symbols gets the empty machine name
  (`CustomFieldForm.SymbolLabelEmptyName`).
- A colour separated by tabs passes the schema, but the colour picker shows
  it as black (`Settings.AcceptedColorPicker`).
- Two categories can be made each other's parent. The header then shows
  neither of them (`CategoryForm.TwoCycleAccepted`,
  `CategoryTree.TwoCycleHidden`).
- The delete guard trusts the page's category list. A list still loading or
  lagging behind the store lets a parent be deleted
  (`CategoryAdmin.StaleListSkipsGuard`).

## Model

| member | source | states |
|---|---|---|
| CategoryTree.BuildNestedCategories | src/components/header.tsx:72-92 | no list gives an empty tree; otherwise one node per id, the top level and every node's children being the categories placed there, in list order |
| CategoryTree.NewNodes | src/components/header.tsx:77-79 | the first pass gives the id→node map (last category per id wins) with every node childless |
| CategoryTree.LinkNodes | src/components/header.tsx:81-89 | the second pass appends each category to its parent's children when the parent id is truthy and known, else to the top level |
| CategoryTree.ChildrenStep | src/components/header.tsx:83-85 | linking one category appends it to its parent's children and changes no other node |
| CategoryTree.CategoryMap | src/components/header.tsx:77-79 | every category's id is a key, and each id maps to a category with that id |
| CategoryTree.CategoryMapKeys | src/components/header.tsx:77-79 | the node map has exactly the ids of the list |
| CategoryTree.CategoryMapFrom | src/components/header.tsx:77-79 | every node comes from the list |
| CategoryTree.CategoryMapLastWins | src/components/header.tsx:77-79 | the node of an id is the last category with that id |
| CategoryTree.Placement | src/components/header.tsx:83-88 | a category goes under a parent exactly when its parent id is truthy and names a node |
| CategoryTree.PlacedMember | src/components/header.tsx:81-89 | an id is in a slot's list exactly when some category with that id is placed there |
| CategoryTree.PlacedConcat | src/components/header.tsx:81-89 | placing keeps list order: the lists of a concatenation are the concatenated lists |
| CategoryTree.Placed | src/components/header.tsx:81-89 | a slot's list is never longer than the category list |
| CategoryTree.EveryCategoryPlaced | src/components/header.tsx:83-88 | every category appears: at the top when its parent does not resolve, otherwise under that parent |
| CategoryTree.PlacedOnce | src/components/header.tsx:77-89 | with distinct ids a category appears in no other slot |
| CategoryTree.PlacedExactlyOnce | src/components/header.tsx:77-89 | with distinct ids a category appears exactly once in its own slot |
| CategoryTree.PlacedOfFirstCount | src/components/header.tsx:81-89 | with distinct ids an id occurs once in a slot when its category is placed there, else not at all |
| CategoryTree.TopLevelIff | src/components/header.tsx:83-88 | the top level holds exactly the categories whose parent does not resolve |
| CategoryTree.SelfParentHidden | src/components/header.tsx:83-85 | a category that names itself as parent is its own child and is not at the top level |
| CategoryTree.TwoCycleHidden | src/components/header.tsx:83-88 | two categories naming each other as parent are both missing from the top level |
| CategoryAdmin.ParentLabel | src/app/admin/categories/page.tsx:168-172 | '-' without a truthy parent id, the parent's name when it resolves to a non-empty name, 'N/A' otherwise |
| CategoryAdmin.ParentLabelAgreesWithTree | src/app/admin/categories/page.tsx:60-63 | with plain names the table names a parent exactly when the header nests the category under it |
| CategoryAdmin.CategoriesPage.AskDelete | src/app/admin/categories/page.tsx:195-198 | opening the confirmation selects the category |
| CategoryAdmin.CategoriesPage.HandleDeleteCategory | src/app/admin/categories/page.tsx:65-89 | refused when the list has a child of the selection; otherwise exactly the selection is deleted; always closes the alert and clears the selection |
| CategoryAdmin.GuardKeepsParentsResolve | src/app/admin/categories/page.tsx:68-81 | with a complete list, a delete the guard allows leaves every stored parent id resolving |
| CategoryAdmin.StaleListSkipsGuard | src/app/admin/categories/page.tsx:66-68 | a loading or stale list lets a parent be deleted, leaving a child with a missing parent |
| CategoryForm.CategoryErrors | src/components/category-form.tsx:30-33 | valid exactly when the name has at least 2 characters, with the schema's message otherwise |
| CategoryForm.NormalizeParent | src/components/category-form.tsx:75 | a falsy parent id becomes null, a truthy one is kept |
| CategoryForm.ResetValues | src/components/category-form.tsx:56-68 | edit mode copies the name and normalises the parent; create mode is '' and null |
| CategoryForm.ShownParent | src/components/category-form.tsx:131-132 | the select shows a truthy parent id as itself and anything else as 'none' |
| CategoryForm.ChosenParent | src/components/category-form.tsx:130 | choosing 'none' gives null, any other value gives that value |
| CategoryForm.ParentSelectRoundTrip | src/components/category-form.tsx:130-131 | choosing what the select shows gives back the normalised parent; 'none' means null |
| CategoryForm.AvailableParents | src/components/category-form.tsx:105 | never the edited category, never more than the list, and in create mode the whole list |
| CategoryForm.AvailableParentsConcat | src/components/category-form.tsx:105 | filtering keeps list order: the offer for a concatenation is the concatenated offers |
| CategoryForm.AvailableParentsMember | src/components/category-form.tsx:105 | every category is offered except the one being edited |
| CategoryForm.SubmitOutcome | src/components/category-form.tsx:70-103 | invalid, not connected, self-parent refused, updated under the edited id, or added under the new id, with the normalised parent |
| CategoryForm.SubmitCategory | src/components/category-form.tsx:70-103 | the outcome of SubmitOutcome, with the store changed only by the write it names |
| CategoryForm.SubmitKeepsNoSelfParent | src/components/category-form.tsx:78-86 | a submit never leaves a stored category that is its own parent |
| CategoryForm.EditUnchanged | src/components/category-form.tsx:56-88 | opening and saving a well-formed category writes it back unchanged |
| CategoryForm.TwoCycleAccepted | src/components/category-form.tsx:79 | making a category the child of its own child is accepted |
| CustomFieldForm.FieldErrors | src/components/custom-field-form.tsx:40-44 | valid exactly when the label has at least 2 characters; the type is one of the two field types |
| CustomFieldForm.ResetValues | src/components/custom-field-form.tsx:67-80 | edit mode copies label, type and required; create mode is '', text, false |
| CustomFieldForm.StoredName | src/components/custom-field-form.tsx:87 | edit mode keeps the field's name; create mode derives it from the label |
| CustomFieldForm.SubmitOutcome | src/components/custom-field-form.tsx:83-111 | invalid, not connected, updated or added, with the submitted values and the stored name |
| CustomFieldForm.SubmitCustomField | src/components/custom-field-form.tsx:83-111 | the outcome of SubmitOutcome, with the store changed only by the write it names |
| CustomFieldForm.AddedNameShape | src/components/custom-field-form.tsx:87 | a new field's name has machine-name shape and its label leads back to it |
| CustomFieldForm.RelabelKeepsName | src/components/custom-field-form.tsx:86-87 | relabelling keeps the name the field was created with |
| CustomFieldForm.SymbolLabelEmptyName | src/components/custom-field-form.tsx:32-44 | a valid label without letters, digits or whitespace gives the empty name |
| CustomFieldForm.EditUnchanged | src/components/custom-field-form.tsx:67-96 | opening and saving a field writes it back unchanged |
| Identifiers.CreateSlug | src/components/product-form.tsx:52-59 | a slug uses only [a-z0-9-] and never holds "--" |
| Identifiers.SlugStable | src/components/product-form.tsx:52-59 | a string already in slug shape is its own slug |
| Identifiers.CreateSlugIdempotent | src/components/brand-form.tsx:25-32 | slugifying a slug changes nothing (the brand form's copy is the same function) |
| Identifiers.CollapsedIsMachineName | src/components/custom-field-form.tsx:36-37 | collapsing the whitespace runs of a trimmed [a-z0-9\s] string gives a machine name |
| Identifiers.CreateMachineName | src/components/custom-field-form.tsx:32-38 | a machine name uses only [a-z0-9_], has no '_' at either end and never "__" |
| Identifiers.SymbolsOnlyEmptyName | src/components/custom-field-form.tsx:32-38 | a label with no letter, digit or whitespace gives the empty name |
| Identifiers.CreateMachineNameTwice | src/components/custom-field-form.tsx:32-38 | applied to a machine name it keeps only the letters and digits |
| Identifiers.AlnumUntouched | src/components/custom-field-form.tsx:36-37 | trimming and collapsing leave letters and digits alone |
| Identifiers.CreateMachineNameIdempotentIff | src/components/custom-field-form.tsx:32-38 | idempotent exactly on names without '_' |
| Identifiers.MachineNameFixedIff | src/components/custom-field-form.tsx:32-38 | any string of machine-name shape is left unchanged exactly when it has no '_' |
| Identifiers.MachineNameOfLowered | src/components/custom-field-form.tsx:34 | lowercasing the label first changes nothing |
| Identifiers.SpacedMachineName | src/components/custom-field-form.tsx:32-38 | lower-case words separated by single spaces get '_' for each space |
| Identifiers.TwoWordMachineName | src/components/custom-field-form.tsx:32-38 | two words separated by a space give the words joined by '_' |
| Identifiers.TwoWordLabel | src/components/custom-field-form.tsx:32-38 | a label that lowercases to two words gives them joined by '_' |
| Identifiers.OrderNumberName | src/components/custom-field-form.tsx:32-38 | "Order Number" gives "order_number" |
| Identifiers.TwoWordMachineNameTwice | src/components/custom-field-form.tsx:32-38 | "a_b" fed back gives "ab", a different name |
| Identifiers.JoinedIsMachineName | src/components/custom-field-form.tsx:32-38 | two words joined by '_' have machine-name shape |
| Identifiers.Capitalize | src/app/admin/submissions/page.tsx:94 | same length; exactly the characters where `\b\w` matches are upper-cased, all others kept |
| Identifiers.PrettifyKey | src/app/admin/submissions/page.tsx:94 | same length; character for character the key with '_' as space, upper-cased where a word starts |
| Identifiers.PrettifyKeyAt | src/app/admin/submissions/page.tsx:94 | a label character is a space exactly where the key has '_' or a space |
| Identifiers.PrettifyKeyRoundTrip | src/app/admin/submissions/page.tsx:94 | the machine name of a machine name's label is that name |
| Identifiers.PrettifyLowerBack | src/app/admin/submissions/page.tsx:94 | lowercasing a machine name's label gives the name with spaces for '_' |
| Identifiers.SpacedBack | src/app/admin/submissions/page.tsx:94 | collapsing those single spaces restores the '_' |
| ProductForm.PriceIssues | src/components/product-form.tsx:36 | a price is accepted exactly when blank or a positive number |
| ProductForm.ImageIssues | src/components/product-form.tsx:29-32 | no image message exactly when every image has a path and a description; messages point at image rows |
| ProductForm.ProductIssues | src/components/product-form.tsx:34-48 | no message exactly when name ≥2, price ok, category ≥1, short description ≥10, description ≥20, at least one image, each image ok |
| ProductForm.BlankFormIssues | src/components/product-form.tsx:29-48 | the blank form gets exactly six messages, in schema order |
| ProductForm.ResetValues | src/components/product-form.tsx:96-118 | edit mode shows a missing or zero price blank, a missing brand empty, a missing featured flag off; create mode is blank |
| ProductForm.StoredPrice | src/components/product-form.tsx:36 | a blank price is stored as no price, an amount as itself |
| ProductForm.ProductRecord | src/components/product-form.tsx:130-141 | the record is the submitted values with the slug of the name |
| ProductForm.SubmitOutcome | src/components/product-form.tsx:127-145 | invalid with the schema's messages, not connected, updated or added with the record |
| ProductForm.SubmitProduct | src/components/product-form.tsx:127-145 | the outcome of SubmitOutcome, with the store changed only by the write it names |
| ProductForm.SavedSlugShape | src/components/product-form.tsx:130 | every saved slug is URL-safe and stable under slugifying |
| ProductForm.EditUnchanged | src/components/product-form.tsx:96-134 | opening and saving a product with a matching slug writes it back unchanged |
| ProductForm.RenameMovesSlug | src/components/product-form.tsx:130-134 | saving recomputes the slug from the submitted name, in edit mode too |
| BrandForm.BrandErrors | src/components/brand-form.tsx:34-38 | valid exactly when the name has ≥2 characters and the logo is empty or a URL; each message appears exactly when its rule fails |
| BrandForm.ResetValues | src/components/brand-form.tsx:63-77 | edit mode shows a missing description or logo as ''; create mode is blank |
| BrandForm.ShowLogoPreview | src/components/brand-form.tsx:146 | the preview shows exactly when the address starts with "http" |
| BrandForm.PreviewedAddressChecked | src/components/brand-form.tsx:146 | a previewed logo address is non-empty, so it is accepted exactly when it is a URL |
| BrandForm.BrandRecord | src/components/brand-form.tsx:82-83 | the record is the submitted values with the slug of the name |
| BrandForm.SubmitOutcome | src/components/brand-form.tsx:79-98 | invalid, not connected, updated or added with the record |
| BrandForm.SubmitBrand | src/components/brand-form.tsx:79-98 | the outcome of SubmitOutcome, with the store changed only by the write it names |
| BrandForm.EditUnchanged | src/components/brand-form.tsx:63-87 | opening and saving a brand with a matching slug writes it back unchanged |
| BrandForm.SavedSlugShape | src/components/brand-form.tsx:82 | every saved slug uses [a-z0-9-] and never holds "--" |
| Submissions.FixedDetails | src/app/admin/submissions/page.tsx:67-80 | name and email first; the phone row exactly when the phone is non-empty; subject and message last |
| Submissions.AdditionalRows | src/app/admin/submissions/page.tsx:83-98 | one row per stored answer, labelled from its key, and no other row |
| Submissions.ShowAdditionalIff | src/app/admin/submissions/page.tsx:83-84 | the additional block shows exactly when custom fields are stored and give at least one row |
| Submissions.LabelsDistinct | src/app/admin/submissions/page.tsx:94 | two machine names never get the same label |
| Submissions.RowLeadsBack | src/app/admin/submissions/page.tsx:90-96 | each row's label leads back to the key its answer is stored under |
| Submissions.SubmissionsPage.AskDelete | src/app/admin/submissions/page.tsx:224-227 | opening the confirmation selects the submission |
| Submissions.SubmissionsPage.HandleDeleteSubmission | src/app/admin/submissions/page.tsx:128-139 | deletes exactly the selection when there is one; always closes the alert and clears the selection |
| Contact.ExtendKeys | src/app/contact/actions.ts:55-57 | extending adds the key to the schema's keys |
| Contact.LookupKnown | src/app/contact/actions.ts:55-57 | a key has a rule exactly when it is a key of the schema |
| Contact.ExtendLookup | src/app/contact/actions.ts:55-57 | after extending, the key has the new rule and every other key keeps its rule |
| Contact.ExtendInPlace | src/app/contact/actions.ts:55-57 | extending with an existing key replaces its entry in place |
| Contact.ExtendNew | src/app/contact/actions.ts:55-57 | extending with a new key appends its entry at the end |
| Contact.ExtendUnique | src/app/contact/actions.ts:55-57 | extending keeps keys unique |
| Contact.FieldRule | src/app/contact/actions.ts:51-53 | a required field needs one character, with "<label> is required."; an optional one may be absent |
| Contact.BuildSchema | src/app/contact/actions.ts:44-62 | the loop gives the schema extended field by field, and the non-empty posted answers |
| Contact.ShapeKeys | src/app/contact/actions.ts:10-16 | the schema's keys are the five fixed ones and every field's name, each once |
| Contact.LastFieldRuleWins | src/app/contact/actions.ts:49-57 | a name's rule is that of the last field with the name |
| Contact.BaseRuleKept | src/app/contact/actions.ts:10-16 | a fixed key no field is named after keeps its fixed rule |
| Contact.RuleIssues | src/app/contact/actions.ts:10-16 | a missing value of a non-optional rule is "Required"; an optional rule never fails |
| Contact.Issues | src/app/contact/actions.ts:65 | at most one message per key |
| Contact.KeyOrderPermutes | src/app/contact/actions.ts:65 | the keys are checked in an order that is a permutation of the schema |
| Contact.KeyOrderIndexFirst | src/app/contact/actions.ts:65 | array-index keys come first, in ascending numeric order |
| Contact.KeyOrderKeepsNamed | src/app/contact/actions.ts:65 | the other keys keep their schema order |
| Contact.KeyOrderNoIndex | src/app/contact/actions.ts:65 | without array-index keys the order is the schema order |
| Contact.IssuesPermute | src/app/contact/actions.ts:65-72 | permuting the schema permutes the messages and no more |
| Contact.KeyOrderIssues | src/app/contact/actions.ts:65-72 | the messages in check order are those of the schema, permuted |
| Contact.IssuesAt | src/app/contact/actions.ts:65 | valid exactly when every key's rule accepts its value; every rule's message is among the issues |
| Contact.LookupIssue | src/app/contact/actions.ts:65 | the messages of a key's rule are among the issues |
| Contact.LookupAccepts | src/app/contact/actions.ts:65-67 | a valid form satisfies the rule of every key |
| Contact.ParsedData | src/app/contact/actions.ts:65 | the parsed data keeps the posted values of the schema's keys and drops the rest |
| Contact.FailureMessage | src/app/contact/actions.ts:98-104 | a failed write reports "An unexpected error occurred. Please try again." and the error's message |
| Contact.Rest | src/app/contact/actions.ts:82 | the rest is every key but the five fixed ones |
| Contact.SubmissionOf | src/app/contact/actions.ts:84-92 | the stored submission: the fixed fields, the rest as custom fields, the time |
| Contact.SubmitContactForm | src/app/contact/actions.ts:33-106 | invalid: the issues, in key-check order, joined by ", " and nothing stored; a failed write: the failure message; otherwise the thank-you message and one new submission |
| Contact.RequiredFieldReported | src/app/contact/actions.ts:49-72 | a required field left blank is reported with its message, which is part of the error text whatever the key order |
| Contact.ValidNeedsNameEmailSubject | src/app/contact/actions.ts:10-16 | whatever the key order, a valid form has a 2-character name, a valid email and a subject |
| Contact.IndexKeyIssues | src/app/contact/actions.ts:49-72 | a required field named "10" left blank is reported before the too-short name |
| Contact.IndexKeyReportedFirst | src/app/contact/actions.ts:65-72 | the error text is "10 is required., Name must be at least 2 characters." |
| Contact.CustomFieldOverridesBase | src/app/contact/actions.ts:55-57 | a field named like a fixed key replaces its rule and the schema does not grow |
| Contact.ShapeLength | src/app/contact/actions.ts:44-62 | the schema has one entry per distinct key |
| Contact.UniqueKeysCount | src/app/contact/actions.ts:55-57 | a schema with unique keys has as many entries as keys |
| Contact.StoredCustomFields | src/app/contact/actions.ts:82-90 | the stored answers are the posted values of custom fields not named like fixed keys |
| Contact.AnswersClosed | src/app/contact/actions.ts:59-61 | the collected answers are exactly the non-empty posted custom values |
| Contact.CollectedAnswersWithinStored | src/app/contact/actions.ts:59-90 | the collected answers are within the stored ones, which also hold the blank answers |
| Settings.LeadingDigits | src/app/admin/settings/page.tsx:32 | the length of the leading digit run |
| Settings.HslColorOfParts | src/app/admin/settings/page.tsx:32 | hue, whitespace, saturation '%', whitespace, lightness '%' matches |
| Settings.HslColorParts | src/app/admin/settings/page.tsx:32 | a match splits into those parts |
| Settings.HslColorIff | src/app/admin/settings/page.tsx:32 | the colour rule in both directions |
| Settings.NoRangeCheck | src/app/admin/settings/page.tsx:32 | "999 999% 999%" is accepted: no range check |
| Settings.DefaultColorsValid | src/app/admin/settings/page.tsx:47-52 | the default colours are accepted |
| Settings.PhoneIssues | src/app/admin/settings/page.tsx:35 | accepted exactly when all ASCII digits and ≥10 long; each message appears exactly when its check fails |
| Settings.ColorIssues | src/app/admin/settings/page.tsx:39-42 | a colour is accepted exactly when it matches the rule |
| Settings.SettingsIssues | src/app/admin/settings/page.tsx:34-43 | the form is accepted exactly when every rule holds |
| Settings.LoadedValues | src/app/admin/settings/page.tsx:183-196 | switches on unless stored false; empty or missing colours fall back to the defaults |
| Settings.LoadedColorsNonEmpty | src/app/admin/settings/page.tsx:190-193 | a loaded colour is never empty |
| Settings.NoStoredColorsLoadDefaults | src/app/admin/settings/page.tsx:190-193 | with no colour stored the loaded colours are accepted |
| Settings.WithDefaultColors | src/app/admin/settings/page.tsx:209-213 | the colours become the defaults, all else is kept |
| Settings.ResetLeavesOtherIssues | src/app/admin/settings/page.tsx:209-213 | after a reset only the number and the image address can fail |
| Settings.MergeSettings | src/app/admin/settings/page.tsx:201 | a merge writes the form's fields and keeps the theme name |
| Settings.SaveThenLoad | src/app/admin/settings/page.tsx:183-201 | saving accepted values and loading them back gives the same values |
| Settings.LoadThenSave | src/app/admin/settings/page.tsx:183-201 | loading and saving unchanged keeps a fully filled document |
| Settings.SettingsForm.constructor | src/app/admin/settings/page.tsx:170-179 | the form starts from the default values |
| Settings.SettingsForm.OnSettings | src/app/admin/settings/page.tsx:183-196 | arriving settings load into the form; no settings change nothing |
| Settings.SettingsForm.ResetColors | src/app/admin/settings/page.tsx:209-213 | the four colours are reset, nothing else changes |
| Settings.SettingsForm.Submit | src/app/admin/settings/page.tsx:199-207 | invalid with the schema's messages, not connected, or merged into the settings document |
| Settings.HexChannels | src/app/admin/settings/page.tsx:55-61 | channels exactly for an optional '#' and six hex digits, each below 256 |
| Settings.FormatHexRoundTrip | src/app/admin/settings/page.tsx:55-100 | every `#rrggbb` colour passes the guard and gives back its channels |
| Settings.HexChannelsIgnoreCase | src/app/admin/settings/page.tsx:56 | the guard ignores case |
| Settings.PickColor | src/app/admin/settings/page.tsx:122-127 | a colour passing the guard becomes the field's value; anything else leaves it |
| Settings.HslToHexRefuses | src/app/admin/settings/page.tsx:86 | the guard refuses exactly strings with fewer than two spaces |
| Settings.PickerValue | src/app/admin/settings/page.tsx:121 | black for an empty or refused value, else the conversion |
| Settings.ShapeSpaces | src/app/admin/settings/page.tsx:32 | the spaces in an accepted colour are its separators |
| Settings.AcceptedColorPicker | src/app/admin/settings/page.tsx:86 | accepted colours with space separators reach the conversion; others are shown black |
| Theme.Declaration | src/firebase/client-provider.tsx:15-18 | a truthy value gives "--name: value;" copied verbatim, otherwise nothing |
| Theme.Declarations | src/firebase/client-provider.tsx:15-18 | four declarations; all empty without settings |
| Theme.Template | src/firebase/client-provider.tsx:13-20 | trimming removes exactly the template's padding |
| Theme.ThemeCss | src/firebase/client-provider.tsx:12-27 | a rendered style always holds "--" |
| Theme.SetColorEmitted | src/firebase/client-provider.tsx:15-26 | a set colour's declaration is part of the rendered style |
| Theme.ThemeCssNullIff | src/firebase/client-provider.tsx:22-24 | nothing is rendered exactly when no colour is set, including without settings |
| Theme.BlockJoinsDeclarations | src/firebase/client-provider.tsx:14-19 | the declarations come in their fixed order, one per line |
| Theme.EmptyBlock | src/firebase/client-provider.tsx:22 | without colours the block holds no "--" |
| CategoryImages.CategoryImageMap | src/app/categories/page.tsx:26-38 | no products give an empty map; otherwise the map built product by product |
| CategoryImages.ImagesKeys | src/app/categories/page.tsx:30-36 | the keys are exactly the categories of products with an image |
| CategoryImages.ImagesFirstWins | src/app/categories/page.tsx:30-34 | each picture is the first image of the first such product of the category |
| CategoryImages.ImagesKept | src/app/categories/page.tsx:31 | a later product never replaces an entry |
| CategoryImages.NonContributorIgnored | src/app/categories/page.tsx:31 | a product without category or images adds nothing |
| CategoryImages.CardImage | src/app/categories/page.tsx:62 | a card looks its picture up by the category's name |
| CategoryImages.CardImageByName | src/app/categories/page.tsx:61-62 | a card has a picture exactly when some product names its category by name |
| Home.FeaturedProducts | src/components/home-client.tsx:43 | at most four, all featured; none without products |
| Home.FeaturedAreFirstFour | src/components/home-client.tsx:43 | the first min(4, k) featured products, in order |
| Home.FeaturedMembers | src/components/home-client.tsx:43 | every shown product is a featured product; with ≤4 featured, all are shown |
| Home.FeaturedIgnoresLater | src/components/home-client.tsx:43 | products after the fourth featured one change nothing |
| Home.ShowHero | src/components/home-client.tsx:45 | hidden exactly when stored as false |
| Home.ShowProducts | src/components/home-client.tsx:46 | hidden exactly when stored as false |
| Home.SectionsMatchSettingsPage | src/components/home-client.tsx:45-46 | the home page shows a section exactly when the settings page loads its switch as on |
| Home.SavedSwitchesShown | src/components/home-client.tsx:45-46 | a saved switch is what the home page shows |
| AdminLayout.RedirectFor | src/app/admin/layout.tsx:13-23 | no redirect while loading; a non-admin off '/login' goes to '/login'; an admin on '/login' goes to '/admin' |
| AdminLayout.ViewFor | src/app/admin/layout.tsx:25-47 | '/login' renders alone; elsewhere the admin header only for a loaded user with an email |
| AdminLayout.AdminPagesGuarded | src/app/admin/layout.tsx:25-47 | off '/login' the page shows exactly for a loaded admin, and then nothing redirects |
| AdminLayout.RedirectNeverShowsAdmin | src/app/admin/layout.tsx:13-47 | whoever is redirected never sees an admin page meanwhile |
| AdminLayout.RedirectSettles | src/app/admin/layout.tsx:18-21 | on the redirect's target nothing redirects again |
| AdminLayout.RedirectLanding | src/app/admin/layout.tsx:18-47 | after the redirect an admin sees the admin home, anyone else the login page |
| Store.Collection.Add | src/app/contact/actions.ts:84 | adding stores the record under a fresh id |
| Store.Collection.Set | src/components/product-form.tsx:134 | a set overwrites the record under its id |
| Store.Collection.Delete | src/app/admin/categories/page.tsx:81 | a delete removes exactly that id |

## Left out

- Store access is left out: subscriptions, `getDocs`, and the fire-and-forget writes. The store is a map changed synchronously, and a new document's id is a parameter. Write failures are modelled only for the contact action (`thrown`).
- Firestore refuses `undefined` field values. When phone or message is not posted, the real write throws. The model covers this only through the `thrown` parameter of `Contact.SubmitContactForm`.
- The float arithmetic of `hexToHsl`/`hslToHex` and the price formatting with `toFixed` are left out. The conversions are parameters (`toHsl`, `toHex`); only their input guards are modelled.
- zod's email and URL checks are library behaviour. They are the parameters `isEmail` and `isUrl`.
- `toLowerCase`/`toUpperCase` are modelled for ASCII letters only.
- `min(n)` counts UTF-16 code units in JavaScript. The model counts characters.
- ProductForm.StoredPrice: a blank price is written as '' in the source. The model writes no price. `Number()` coercion is abstracted into `PriceInput`.
- Submissions.AdditionalRows: the rows are a set. Their order (`Object.entries`) is not modelled.
- Submissions.FixedDetails: `formatDate` is a parameter (date-fns `format`).
- CategoryTree.PlacedOnce: the count identity "top level plus all children equals the input length" is stated per category. With distinct ids every category is in exactly one slot, once (`EveryCategoryPlaced`, `PlacedOnce`, `PlacedExactlyOnce`). The sum of the lengths of all the lists is not stated.
- Store.Collection.Set: `setDoc` with merge is modelled as replacing the record. The forms write every modelled field, and the settings merge is modelled separately (`Settings.MergeSettings`).
- Not modelled: React rendering, toasts, dialogs, `onSave` callbacks, authentication, environment variables, and the store's ordering of submissions.
