/** The contact-submissions page (src/app/admin/submissions/page.tsx): the
    details shown for one submission, with the custom answers labelled from
    their keys, and the delete action. */
module Submissions {
  import opened Types
  import opened Store
  import opened Identifiers

  datatype Detail = Detail(labelText: string, value: string)

  /** The fixed details: the phone row only for a non-empty phone; the date
      as `formatDate` renders it; a missing message shows empty. */
  function FixedDetails(sub: ContactFormSubmission, formatDate: string -> string): (rows: seq<Detail>)
    ensures |rows| == if Truthy(sub.phone) then 6 else 5
    ensures rows[0] == Detail("Name", sub.name) && rows[1] == Detail("Email", sub.email)
    ensures Detail("Phone", sub.phone.GetOr("")) in rows <==> Truthy(sub.phone)
    ensures rows[|rows| - 2] == Detail("Subject", sub.subject)
    ensures rows[|rows| - 1] == Detail("Message", sub.message.GetOr(""))
  {
    [Detail("Name", sub.name), Detail("Email", sub.email)]
    + (if Truthy(sub.phone) then [Detail("Phone", sub.phone.value)] else [])
    + [Detail("Date", formatDate(sub.submissionDate)),
       Detail("Subject", sub.subject),
       Detail("Message", sub.message.GetOr(""))]
  }

  /** The "Additional Information" section appears only for a non-empty
      map of custom answers. */
  predicate ShowAdditional(customFields: Option<map<string, string>>) {
    customFields.Some? && |customFields.value| > 0
  }

  /** The rows of that section: each answer under the label made from its
      key. The order of the rows is not modelled. */
  function AdditionalRows(customFields: map<string, string>): (rows: set<Detail>)
    ensures forall k :: k in customFields ==> Detail(PrettifyKey(k), customFields[k]) in rows
    ensures forall d :: d in rows ==> exists k :: k in customFields && d == Detail(PrettifyKey(k), customFields[k])
  {
    set k | k in customFields :: Detail(PrettifyKey(k), customFields[k])
  }

  /** The section appears exactly when it has a row to show. */
  lemma ShowAdditionalIff(customFields: Option<map<string, string>>)
    ensures ShowAdditional(customFields) <==> customFields.Some? && AdditionalRows(customFields.value) != {}
  {
    if customFields.Some? && |customFields.value| > 0 {
      var m := customFields.value;
      var k :| k in m;
      assert Detail(PrettifyKey(k), m[k]) in AdditionalRows(m);
    }
  }

  /** Keys made by `createMachineName` never share a label. */
  lemma LabelsDistinct(k1: string, k2: string)
    requires IsMachineName(k1) && IsMachineName(k2) && k1 != k2
    ensures PrettifyKey(k1) != PrettifyKey(k2)
  {
    PrettifyKeyRoundTrip(k1);
    PrettifyKeyRoundTrip(k2);
  }

  /** So each row of the section leads back to its answer: the machine name
      of the label is the key the answer is stored under. */
  lemma RowLeadsBack(customFields: map<string, string>, d: Detail)
    requires forall k :: k in customFields ==> IsMachineName(k)
    requires d in AdditionalRows(customFields)
    ensures CreateMachineName(d.labelText) in customFields
    ensures customFields[CreateMachineName(d.labelText)] == d.value
  {
    var k :| k in customFields && d == Detail(PrettifyKey(k), customFields[k]);
    PrettifyKeyRoundTrip(k);
  }

  /** The toast the delete action raises. */
  datatype Notice = DeletionInitiated(name: string)

  class SubmissionsPage {
    var deleteAlertOpen: bool
    var selected: Option<ContactFormSubmission>
    var notice: Option<Notice>

    constructor ()
      ensures !deleteAlertOpen && selected.None? && notice.None?
    {
      deleteAlertOpen := false;
      selected := None;
      notice := None;
    }

    method AskDelete(s: ContactFormSubmission)
      modifies this
      ensures deleteAlertOpen && selected == Some(s) && notice == old(notice)
    {
      deleteAlertOpen := true;
      selected := Some(s);
    }

    /** `handleDeleteSubmission`: with a selection and a store connection the
        submission is deleted; in every case the confirmation closes and the
        selection clears. */
    method HandleDeleteSubmission(db: Option<Collection<ContactFormSubmission>>)
      modifies this, if db.Some? then {db.value} else {}
      ensures !deleteAlertOpen && selected.None?
      ensures db.Some? ==>
        db.value.docs ==
          if old(selected).Some? then old(db.value.docs) - {old(selected).value.id} else old(db.value.docs)
      ensures notice ==
        if db.Some? && old(selected).Some? then Some(DeletionInitiated(old(selected).value.name)) else old(notice)
    {
      if selected.Some? && db.Some? {
        db.value.Delete(selected.value.id);
        notice := Some(DeletionInitiated(selected.value.name));
      }
      deleteAlertOpen := false;
      selected := None;
    }
  }
}
