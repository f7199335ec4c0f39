/** The dialog that adds or edits a category (src/components/category-form.tsx). */
module CategoryForm {
  import opened Types
  import opened Text
  import opened Store

  /** The form's values: a name and an optional parent id. */
  datatype CategoryValues = CategoryValues(name: string, parentId: Option<string>)

  const NameTooShort := "Name must be at least 2 characters."

  /** The schema's messages: the name needs at least two characters. */
  function CategoryErrors(v: CategoryValues): (errors: seq<string>)
    ensures errors == [] <==> |v.name| >= 2
    ensures errors != [] ==> errors == [NameTooShort]
  {
    if |v.name| < 2 then [NameTooShort] else []
  }

  /** `parentId || null`: an empty parent id means none. */
  function NormalizeParent(p: Option<string>): (q: Option<string>)
    ensures q.Some? <==> Truthy(p)
    ensures q.Some? ==> q == p
  {
    if Truthy(p) then p else None
  }

  /** The values the dialog opens with: the category's own in edit mode,
      blank in create mode. */
  function ResetValues(editing: Option<Category>): (v: CategoryValues)
    ensures editing.None? ==> v == CategoryValues("", None)
    ensures editing.Some? ==> v.name == editing.value.name && v.parentId == NormalizeParent(editing.value.parentId)
  {
    match editing
    case None => CategoryValues("", None)
    case Some(c) => CategoryValues(c.name, NormalizeParent(c.parentId))
  }

  /** The parent select shows 'none' for no parent ... */
  function ShownParent(p: Option<string>): (value: string)
    ensures Truthy(p) ==> value == p.value
    ensures !Truthy(p) ==> value == "none"
  {
    OrElse(p, "none")
  }

  /** ... and choosing 'none' clears the parent. */
  function ChosenParent(value: string): (p: Option<string>)
    ensures p.None? <==> value == "none"
    ensures p.Some? ==> p.value == value
  {
    if value == "none" then None else Some(value)
  }

  /** Choosing what the select shows gives back the normalised parent, for
      every parent id other than the literal 'none'. */
  lemma ParentSelectRoundTrip(p: Option<string>)
    requires p != Some("none")
    ensures ChosenParent(ShownParent(p)) == NormalizeParent(p)
  {
  }

  /** The parents offered: every category except the one being edited; in
      create mode the whole list. */
  function AvailableParents(cats: seq<Category>, editing: Option<Category>): (offered: seq<Category>)
    ensures |offered| <= |cats|
    ensures forall i :: 0 <= i < |offered| ==> editing.None? || offered[i].id != editing.value.id
    ensures editing.None? ==> offered == cats
  {
    var keep := (c: Category) => editing.None? || c.id != editing.value.id;
    if editing.None? then
      FilterAll(cats, keep);
      Filter(cats, keep)
    else
      Filter(cats, keep)
  }

  /** The offered parents keep the list's order: offering from two lists
      one after the other offers from each in turn. */
  lemma AvailableParentsConcat(a: seq<Category>, b: seq<Category>, editing: Option<Category>)
    ensures AvailableParents(a + b, editing) == AvailableParents(a, editing) + AvailableParents(b, editing)
  {
    FilterConcat(a, b, (c: Category) => editing.None? || c.id != editing.value.id);
  }

  /** In create mode every category is offered; in edit mode exactly the
      categories with another id. */
  lemma AvailableParentsMember(cats: seq<Category>, editing: Option<Category>, c: Category)
    ensures c in AvailableParents(cats, editing) <==>
      c in cats && (editing.None? || c.id != editing.value.id)
  {
    FilterMember(cats, (c: Category) => editing.None? || c.id != editing.value.id, c);
  }

  /** What submitting the dialog does. */
  datatype CategoryOutcome =
    | Invalid(errors: seq<string>)
    | NotConnected
    | SelfParent
    | Updated(record: Category)
    | Added(record: Category)

  /** The schema is checked first; then, with a store connection, edit mode
      refuses the category's own id as parent and otherwise overwrites the
      category, and create mode adds a new one under `newId`. */
  function SubmitOutcome(connected: bool, editing: Option<Category>, v: CategoryValues, newId: Id): (r: CategoryOutcome)
    ensures r.Invalid? <==> CategoryErrors(v) != []
    ensures r.Invalid? ==> r.errors == CategoryErrors(v)
    ensures r.SelfParent? <==> |v.name| >= 2 && connected && editing.Some? && v.parentId == Some(editing.value.id)
    ensures (r.Updated? || r.Added?) ==> r.record.name == v.name && r.record.parentId == NormalizeParent(v.parentId)
    ensures r.Updated? <==> |v.name| >= 2 && connected && editing.Some? && v.parentId != Some(editing.value.id)
    ensures r.Updated? ==> r.record.id == editing.value.id
    ensures r.Added? <==> |v.name| >= 2 && connected && editing.None?
    ensures r.Added? ==> r.record.id == newId
  {
    var errors := CategoryErrors(v);
    if errors != [] then Invalid(errors)
    else if !connected then NotConnected
    else
      match editing
      case Some(c) =>
        if v.parentId == Some(c.id) then SelfParent
        else Updated(Category(c.id, v.name, NormalizeParent(v.parentId)))
      case None => Added(Category(newId, v.name, NormalizeParent(v.parentId)))
  }

  /** The categories once the outcome is written. */
  function AfterSubmit(docs: map<Id, Category>, r: CategoryOutcome): (after: map<Id, Category>)
    ensures (r.Updated? || r.Added?) ==> after == docs[r.record.id := r.record]
    ensures !(r.Updated? || r.Added?) ==> after == docs
  {
    match r
    case Updated(c) => docs[c.id := c]
    case Added(c) => docs[c.id := c]
    case _ => docs
  }

  /** `form.handleSubmit(onSubmit)`. `db` is `None` when the store is not
      connected; `newId` is the id the store hands out for a new record. */
  method SubmitCategory(db: Option<Collection<Category>>, editing: Option<Category>, v: CategoryValues, newId: Id)
    returns (r: CategoryOutcome)
    requires db.Some? ==> newId !in db.value.docs
    modifies if db.Some? then {db.value} else {}
    ensures r == SubmitOutcome(db.Some?, editing, v, newId)
    ensures db.Some? ==> db.value.docs == AfterSubmit(old(db.value.docs), r)
  {
    var errors := CategoryErrors(v);
    if errors != [] {
      return Invalid(errors);
    }
    if db.None? {
      return NotConnected;
    }
    var record := Category(newId, v.name, NormalizeParent(v.parentId));
    if editing.Some? {
      var c := editing.value;
      if v.parentId == Some(c.id) {
        return SelfParent;
      }
      record := record.(id := c.id);
      db.value.Set(c.id, record);
      r := Updated(record);
    } else {
      db.value.Add(newId, record);
      r := Added(record);
    }
  }

  /** No stored category names itself as parent. */
  predicate NoSelfParent(docs: map<Id, Category>) {
    forall k :: k in docs ==> docs[k].id == k && docs[k].parentId != Some(k)
  }

  /** Submitting never makes a category its own parent, provided a new
      category's parent is picked among the existing ones. */
  lemma SubmitKeepsNoSelfParent(docs: map<Id, Category>, editing: Option<Category>, v: CategoryValues, newId: Id)
    requires NoSelfParent(docs)
    requires newId !in docs
    requires editing.None? && v.parentId.Some? ==> v.parentId.value in docs
    ensures NoSelfParent(AfterSubmit(docs, SubmitOutcome(true, editing, v, newId)))
  {
  }

  /** Opening a well-formed category for editing and saving it unchanged
      writes back the same category. */
  lemma EditUnchanged(c: Category, newId: Id)
    requires |c.name| >= 2
    requires c.parentId != Some("") && c.parentId != Some(c.id)
    ensures SubmitOutcome(true, Some(c), ResetValues(Some(c)), newId) == Updated(c)
  {
  }

  /** Only the direct self-reference is refused: making A a child of its own
      child B is accepted, and the two then name each other as parents. */
  lemma TwoCycleAccepted(docs: map<Id, Category>, a: Category, b: Category, newId: Id)
    requires a.id in docs && b.id in docs && a.id != b.id && b.id != ""
    requires docs[b.id] == b && b.parentId == Some(a.id)
    requires |a.name| >= 2
    ensures var r := SubmitOutcome(true, Some(a), CategoryValues(a.name, Some(b.id)), newId);
      var after := AfterSubmit(docs, r);
      && r == Updated(Category(a.id, a.name, Some(b.id)))
      && after[a.id].parentId == Some(b.id)
      && after[b.id].parentId == Some(a.id)
  {
  }
}
