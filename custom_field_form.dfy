/** The dialog that adds or edits a custom contact-form field
    (src/components/custom-field-form.tsx). The stored `name` is derived from
    the label once, when the field is created, and is the key under which the
    contact form stores the visitor's answer. */
module CustomFieldForm {
  import opened Types
  import opened Text
  import opened Store
  import opened Identifiers

  /** The form's values. The type select offers only the two field types. */
  datatype FieldValues = FieldValues(labelText: string, fieldType: FieldType, required: bool)

  const LabelTooShort := "Label must be at least 2 characters."

  /** The schema's messages: the label needs at least two characters. */
  function FieldErrors(v: FieldValues): (errors: seq<string>)
    ensures errors == [] <==> |v.labelText| >= 2
    ensures errors != [] ==> errors == [LabelTooShort]
  {
    if |v.labelText| < 2 then [LabelTooShort] else []
  }

  /** The values the dialog opens with. */
  function ResetValues(editing: Option<CustomFormField>): (v: FieldValues)
    ensures editing.None? ==> v == FieldValues("", Text, false)
    ensures editing.Some? ==>
      v.labelText == editing.value.labelText && v.fieldType == editing.value.fieldType
      && v.required == editing.value.required
  {
    match editing
    case None => FieldValues("", Text, false)
    case Some(f) => FieldValues(f.labelText, f.fieldType, f.required)
  }

  /** What submitting the dialog does. */
  datatype FieldOutcome =
    | Invalid(errors: seq<string>)
    | NotConnected
    | Updated(record: CustomFormField)
    | Added(record: CustomFormField)

  /** The name stored with the field: kept as it is when editing, derived
      from the label when creating. */
  function StoredName(editing: Option<CustomFormField>, v: FieldValues): (name: string)
    ensures editing.Some? ==> name == editing.value.name
    ensures editing.None? ==> name == CreateMachineName(v.labelText)
  {
    if editing.Some? then editing.value.name else CreateMachineName(v.labelText)
  }

  /** The schema is checked first; then, with a store connection, the field
      is overwritten (edit mode) or added under `newId` (create mode), with
      the submitted values and the stored name. */
  function SubmitOutcome(connected: bool, editing: Option<CustomFormField>, v: FieldValues, newId: Id): (r: FieldOutcome)
    ensures r.Invalid? <==> FieldErrors(v) != []
    ensures r.Invalid? ==> r.errors == FieldErrors(v)
    ensures r.NotConnected? <==> |v.labelText| >= 2 && !connected
    ensures r.Updated? <==> |v.labelText| >= 2 && connected && editing.Some?
    ensures r.Added? <==> |v.labelText| >= 2 && connected && editing.None?
    ensures (r.Updated? || r.Added?) ==>
      && r.record.labelText == v.labelText && r.record.fieldType == v.fieldType
      && r.record.required == v.required && r.record.name == StoredName(editing, v)
    ensures r.Updated? ==> r.record.id == editing.value.id
    ensures r.Added? ==> r.record.id == newId
  {
    var errors := FieldErrors(v);
    if errors != [] then Invalid(errors)
    else if !connected then NotConnected
    else
      var name := StoredName(editing, v);
      match editing
      case Some(f) => Updated(CustomFormField(f.id, name, v.labelText, v.fieldType, v.required))
      case None => Added(CustomFormField(newId, name, v.labelText, v.fieldType, v.required))
  }

  /** The fields once the outcome is written. */
  function AfterSubmit(docs: map<Id, CustomFormField>, r: FieldOutcome): (after: map<Id, CustomFormField>)
    ensures (r.Updated? || r.Added?) ==> after == docs[r.record.id := r.record]
    ensures !(r.Updated? || r.Added?) ==> after == docs
  {
    match r
    case Updated(f) => docs[f.id := f]
    case Added(f) => docs[f.id := f]
    case _ => docs
  }

  /** `form.handleSubmit(onSubmit)`. `db` is `None` when the store is not
      connected; `newId` is the id the store hands out for a new record. */
  method SubmitCustomField(db: Option<Collection<CustomFormField>>, editing: Option<CustomFormField>, v: FieldValues, newId: Id)
    returns (r: FieldOutcome)
    requires db.Some? ==> newId !in db.value.docs
    modifies if db.Some? then {db.value} else {}
    ensures r == SubmitOutcome(db.Some?, editing, v, newId)
    ensures db.Some? ==> db.value.docs == AfterSubmit(old(db.value.docs), r)
  {
    var errors := FieldErrors(v);
    if errors != [] {
      return Invalid(errors);
    }
    if db.None? {
      return NotConnected;
    }
    var name := if editing.Some? then editing.value.name else CreateMachineName(v.labelText);
    var record := CustomFormField(newId, name, v.labelText, v.fieldType, v.required);
    if editing.Some? {
      record := record.(id := editing.value.id);
      db.value.Set(editing.value.id, record);
      r := Updated(record);
    } else {
      db.value.Add(newId, record);
      r := Added(record);
    }
  }

  /** A newly added field's name has machine-name shape, and the label the
      submissions page shows for it leads back to it. */
  lemma AddedNameShape(v: FieldValues, newId: Id)
    requires |v.labelText| >= 2
    ensures var r := SubmitOutcome(true, None, v, newId);
      r.Added? && IsMachineName(r.record.name)
      && CreateMachineName(PrettifyKey(r.record.name)) == r.record.name
  {
    PrettifyKeyRoundTrip(CreateMachineName(v.labelText));
  }

  /** Relabelling a field keeps the name it was created with, so answers
      stored under the old key stay attached to it. */
  lemma RelabelKeepsName(first: FieldValues, second: FieldValues, newId: Id)
    requires |first.labelText| >= 2 && |second.labelText| >= 2
    ensures var created := SubmitOutcome(true, None, first, newId);
      var edited := SubmitOutcome(true, Some(created.record), second, newId);
      edited.Updated? && edited.record.id == newId
      && edited.record.name == CreateMachineName(first.labelText)
      && edited.record.labelText == second.labelText
  {
  }

  /** A label long enough for the schema can still give an empty name, when
      it has no letters, digits or whitespace. */
  lemma SymbolLabelEmptyName(v: FieldValues, newId: Id)
    requires |v.labelText| >= 2
    requires forall i :: 0 <= i < |v.labelText| ==> !IsMachineSource(ToLower(v.labelText[i]))
    ensures var r := SubmitOutcome(true, None, v, newId);
      r.Added? && r.record.name == ""
  {
    SymbolsOnlyEmptyName(v.labelText);
  }

  /** Opening a field for editing and saving it unchanged writes back the
      same field. */
  lemma EditUnchanged(f: CustomFormField, newId: Id)
    requires |f.labelText| >= 2
    ensures SubmitOutcome(true, Some(f), ResetValues(Some(f)), newId) == Updated(f)
  {
  }
}
