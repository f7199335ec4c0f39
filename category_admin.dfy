/** The category administration page (src/app/admin/categories/page.tsx):
    the parent column of the category table and the guarded delete action. */
module CategoryAdmin {
  import opened Types
  import opened Store
  import opened CategoryTree

  /** The parent column: '-' when the category has no (truthy) parent id,
      otherwise the parent's name, or 'N/A' when the id is unknown or the
      parent's name is empty. */
  function ParentLabel(parentId: Option<string>, categoryMap: map<Id, Category>): (shown: string)
    ensures !Truthy(parentId) ==> shown == "-"
    ensures Truthy(parentId) && parentId.value in categoryMap && categoryMap[parentId.value].name != "" ==>
              shown == categoryMap[parentId.value].name
    ensures Truthy(parentId) && (parentId.value !in categoryMap || categoryMap[parentId.value].name == "") ==>
              shown == "N/A"
  {
    if !Truthy(parentId) then "-"
    else if parentId.value in categoryMap then OrElse(Some(categoryMap[parentId.value].name), "N/A")
    else "N/A"
  }

  /** No category is named like the placeholders of the parent column. */
  predicate PlainNames(cats: seq<Category>) {
    forall i :: 0 <= i < |cats| ==> cats[i].name !in {"", "-", "N/A"}
  }

  /** The table and the header agree: the table names a parent exactly when
      the header nests the category under that parent, shows 'N/A' exactly
      when the header puts a category with a parent id at the top level, and
      '-' exactly when there is no parent id. */
  lemma ParentLabelAgreesWithTree(cats: seq<Category>, i: int)
    requires 0 <= i < |cats|
    requires PlainNames(cats)
    ensures var ids := CategoryMap(cats).Keys;
      var shown := ParentLabel(cats[i].parentId, CategoryMap(cats));
      && (shown == "-" <==> !Truthy(cats[i].parentId))
      && (shown == "N/A" <==> Truthy(cats[i].parentId) && !Resolves(cats[i], ids))
      && (Resolves(cats[i], ids) <==> shown != "-" && shown != "N/A")
      && (Resolves(cats[i], ids) ==> shown == CategoryMap(cats)[cats[i].parentId.value].name)
  {
    var m := CategoryMap(cats);
    var p := cats[i].parentId;
    if Truthy(p) && p.value in m {
      CategoryMapFrom(cats, p.value);
      var j :| 0 <= j < |cats| && cats[j] == m[p.value];
      assert m[p.value].name !in {"", "-", "N/A"};
    }
  }

  /** `categories?.some(cat => cat.parentId === id)`; a list still loading
      is no list, and nothing is a parent of anything in it. */
  predicate IsParent(snapshot: Option<seq<Category>>, id: Id) {
    snapshot.Some? && exists i :: 0 <= i < |snapshot.value| && snapshot.value[i].parentId == Some(id)
  }

  /** The toast the delete action raises. */
  datatype Notice = CannotDeleteParent | DeletionInitiated(name: string)

  class CategoriesPage {
    /** The last category list received from the store, `None` while loading. */
    var snapshot: Option<seq<Category>>
    var deleteAlertOpen: bool
    var selected: Option<Category>
    var notice: Option<Notice>

    constructor (snapshot: Option<seq<Category>>)
      ensures this.snapshot == snapshot
      ensures !deleteAlertOpen && selected.None? && notice.None?
    {
      this.snapshot := snapshot;
      deleteAlertOpen := false;
      selected := None;
      notice := None;
    }

    /** Opening the confirmation for a category. */
    method AskDelete(c: Category)
      modifies this
      ensures deleteAlertOpen && selected == Some(c)
      ensures snapshot == old(snapshot) && notice == old(notice)
    {
      deleteAlertOpen := true;
      selected := Some(c);
    }

    /** `handleDeleteCategory`. With a selection and a store connection,
        the delete is refused when the current list has a category whose
        parent is the selection, and issued otherwise; in every case the
        confirmation closes and the selection clears. `db` is `None` when the
        store is not connected. */
    method HandleDeleteCategory(db: Option<Collection<Category>>)
      modifies this, if db.Some? then {db.value} else {}
      ensures !deleteAlertOpen && selected.None?
      ensures snapshot == old(snapshot)
      ensures db.Some? ==>
        db.value.docs ==
          if old(selected).Some? && !IsParent(snapshot, old(selected).value.id)
          then old(db.value.docs) - {old(selected).value.id}
          else old(db.value.docs)
      ensures notice ==
        if db.None? || old(selected).None? then old(notice)
        else if IsParent(snapshot, old(selected).value.id) then Some(CannotDeleteParent)
        else Some(DeletionInitiated(old(selected).value.name))
    {
      if selected.Some? && db.Some? {
        var target := selected.value;
        if IsParent(snapshot, target.id) {
          notice := Some(CannotDeleteParent);
          deleteAlertOpen := false;
          selected := None;
          return;
        }
        db.value.Delete(target.id);
        notice := Some(DeletionInitiated(target.name));
      }
      deleteAlertOpen := false;
      selected := None;
    }
  }

  /** Every stored category's parent id, when present, names a stored
      category. */
  predicate ParentsResolve(docs: map<Id, Category>) {
    forall k :: k in docs && docs[k].parentId.Some? ==> docs[k].parentId.value in docs
  }

  /** Every stored category appears in the list. */
  predicate Lists(s: seq<Category>, docs: map<Id, Category>) {
    forall k :: k in docs ==> docs[k] in s
  }

  /** When the page's list holds every stored category, a delete the guard
      lets through leaves no category with a missing parent. */
  lemma GuardKeepsParentsResolve(docs: map<Id, Category>, s: seq<Category>, id: Id)
    requires ParentsResolve(docs)
    requires Lists(s, docs)
    requires !IsParent(Some(s), id)
    ensures ParentsResolve(docs - {id})
  {
    var rest := docs - {id};
    forall k | k in rest && rest[k].parentId.Some?
      ensures rest[k].parentId.value in rest
    {
      var j :| 0 <= j < |s| && s[j] == docs[k];
      assert docs[k].parentId != Some(id);
    }
  }

  /** The guard trusts the page's list: while the list is still loading, or
      when it lags behind the store and misses the children of the selection,
      the delete goes through and a stored child is left with a missing
      parent. */
  lemma StaleListSkipsGuard(snapshot: Option<seq<Category>>, docs: map<Id, Category>, parent: Id, child: Id)
    requires snapshot.Some? ==> forall i :: 0 <= i < |snapshot.value| ==> snapshot.value[i].parentId != Some(parent)
    requires parent in docs && child in docs && child != parent
    requires docs[child].parentId == Some(parent)
    ensures !IsParent(snapshot, parent)
    ensures child in docs - {parent} && !ParentsResolve(docs - {parent})
  {
    var after := docs - {parent};
    assert child in after && after[child].parentId == Some(parent);
  }
}
