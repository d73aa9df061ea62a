/** A waitlist page: the entries of one waitlist type, the add form, the
    status editor and the details editor. Every write goes to the store
    first; only after it succeeds is the local list brought up to date. */
module Waitlist {

  import opened Options
  import opened Text
  import Store
  import Rows

  const VehicleTypeOptions: seq<string> := ["Boat", "Jet Ski", "PWC", "Dinghy", "Other"]
  const StatusOptions: seq<string> :=
    ["Waiting", "Contacted", "Offer Made", "Accepted - Pending", "Fulfilled", "Declined", "Archived"]

  /** A row of the waitlist table. */
  datatype WaitlistEntry = WaitlistEntry(
    id: int,
    createdAt: string,
    waitlistType: string,
    name: string,
    phone: Option<string>,
    email: Option<string>,
    address: Option<string>,
    boatName: Option<string>,
    boatLicense: Option<string>,
    trailerLicensePlate: Option<string>,
    boatOrJetSki: Option<string>,
    boatWidth: Option<string>,
    boatLength: Option<string>,
    notes: Option<string>,
    status: string)

  /** The add form and the details form. */
  datatype WaitlistForm = WaitlistForm(
    name: string,
    phone: string,
    email: string,
    address: string,
    boatName: string,
    boatLicense: string,
    trailerLicensePlate: string,
    boatOrJetSki: string,
    boatWidth: string,
    boatLength: string,
    notes: string)

  const InitialForm: WaitlistForm :=
    WaitlistForm("", "", "", "", "", "", "", VehicleTypeOptions[0], "", "", "")

  /** The row `handleAddEntry` inserts. */
  datatype NewEntryRow = NewEntryRow(details: WaitlistForm, waitlistType: string, status: string)

  /** The form as typed (the name is not trimmed), with the page's type and
      the status 'Waiting'. */
  function NewEntry(form: WaitlistForm, waitlistType: string): (row: NewEntryRow)
    ensures row.details == form && row.waitlistType == waitlistType
    ensures row.status == StatusOptions[0]
  {
    NewEntryRow(form, waitlistType, "Waiting")
  }

  /** The details form filled from an entry: null and '' give '', and a
      vessel type that is null or '' gives the first vessel type. */
  function EditFormOf(e: WaitlistEntry): (f: WaitlistForm)
    ensures f.name == e.name
    ensures f.boatOrJetSki != ""
    ensures f.boatOrJetSki == (if e.boatOrJetSki.Some? && e.boatOrJetSki.value != "" then e.boatOrJetSki.value
                               else VehicleTypeOptions[0])
    ensures e.phone.None? ==> f.phone == ""
    ensures e.email.None? ==> f.email == ""
    ensures e.notes.None? ==> f.notes == ""
    ensures e.address.None? ==> f.address == ""
    ensures e.boatName.None? ==> f.boatName == ""
    ensures e.boatLicense.None? ==> f.boatLicense == ""
    ensures e.trailerLicensePlate.None? ==> f.trailerLicensePlate == ""
    ensures e.boatWidth.None? ==> f.boatWidth == ""
    ensures e.boatLength.None? ==> f.boatLength == ""
    ensures e.phone.Some? ==> f.phone == e.phone.value
    ensures e.email.Some? ==> f.email == e.email.value
    ensures e.address.Some? ==> f.address == e.address.value
    ensures e.boatName.Some? ==> f.boatName == e.boatName.value
    ensures e.boatLicense.Some? ==> f.boatLicense == e.boatLicense.value
    ensures e.trailerLicensePlate.Some? ==> f.trailerLicensePlate == e.trailerLicensePlate.value
    ensures e.boatWidth.Some? ==> f.boatWidth == e.boatWidth.value
    ensures e.boatLength.Some? ==> f.boatLength == e.boatLength.value
    ensures e.notes.Some? ==> f.notes == e.notes.value
  {
    WaitlistForm(e.name, OrDefault(e.phone, ""), OrDefault(e.email, ""), OrDefault(e.address, ""),
      OrDefault(e.boatName, ""), OrDefault(e.boatLicense, ""), OrDefault(e.trailerLicensePlate, ""),
      OrDefault(e.boatOrJetSki, VehicleTypeOptions[0]), OrDefault(e.boatWidth, ""),
      OrDefault(e.boatLength, ""), OrDefault(e.notes, ""))
  }

  /** An entry after a successful details update: the form's fields replace
      the entry's, while the id, creation time, type and status are kept. */
  function MergeDetails(e: WaitlistEntry, f: WaitlistForm): (u: WaitlistEntry)
    ensures u.id == e.id && u.createdAt == e.createdAt
    ensures u.waitlistType == e.waitlistType && u.status == e.status
    ensures EditFormOf(u) == f <==> f.boatOrJetSki != ""
  {
    WaitlistEntry(e.id, e.createdAt, e.waitlistType, f.name, Some(f.phone), Some(f.email), Some(f.address),
      Some(f.boatName), Some(f.boatLicense), Some(f.trailerLicensePlate), Some(f.boatOrJetSki),
      Some(f.boatWidth), Some(f.boatLength), Some(f.notes), e.status)
  }

  /** Saving the details form exactly as it was opened gives back the entry,
      provided no column of it was null and its vessel type was not ''. */
  lemma UnchangedDetailsRoundTrip(e: WaitlistEntry)
    requires e.phone.Some? && e.email.Some? && e.address.Some? && e.boatName.Some?
    requires e.boatLicense.Some? && e.trailerLicensePlate.Some? && e.boatWidth.Some?
    requires e.boatLength.Some? && e.notes.Some?
    requires e.boatOrJetSki.Some? && e.boatOrJetSki.value != ""
    ensures MergeDetails(e, EditFormOf(e)) == e
  {
  }

  function EntryId(e: WaitlistEntry): int {
    e.id
  }

  /** The list after a successful delete of `id`. */
  function WithoutEntry(es: seq<WaitlistEntry>, id: int): (r: seq<WaitlistEntry>)
    ensures forall e :: e in r ==> e in es && e.id != id
    ensures forall e :: e in es && e.id != id ==> e in r
  {
    Rows.WithoutMembers(es, EntryId, id);
    Rows.Without(es, EntryId, id)
  }

  /** Deleting keeps the order of the rest: the list splits anywhere into
      two parts that are filtered independently. */
  lemma DeleteKeepsOrder(xs: seq<WaitlistEntry>, ys: seq<WaitlistEntry>, id: int)
    ensures WithoutEntry(xs + ys, id) == WithoutEntry(xs, id) + WithoutEntry(ys, id)
  {
    Rows.WithoutAppend(xs, ys, EntryId, id);
  }

  /** Deleting an id that no entry has changes nothing. */
  lemma DeleteAbsent(es: seq<WaitlistEntry>, id: int)
    requires forall i :: 0 <= i < |es| ==> es[i].id != id
    ensures WithoutEntry(es, id) == es
  {
    Rows.WithoutAbsent(es, EntryId, id);
  }

  /** The list after a successful status update. */
  function WithStatus(es: seq<WaitlistEntry>, id: int, status: string): (r: seq<WaitlistEntry>)
    ensures |r| == |es|
    ensures forall i :: 0 <= i < |es| && es[i].id == id ==> r[i] == es[i].(status := status)
    ensures forall i :: 0 <= i < |es| && es[i].id != id ==> r[i] == es[i]
  {
    Rows.Update(es, EntryId, id, (e: WaitlistEntry) => e.(status := status))
  }

  /** The list after a successful details update. */
  function WithDetails(es: seq<WaitlistEntry>, id: int, f: WaitlistForm): (r: seq<WaitlistEntry>)
    ensures |r| == |es|
    ensures forall i :: 0 <= i < |es| && es[i].id == id ==> r[i] == MergeDetails(es[i], f)
    ensures forall i :: 0 <= i < |es| && es[i].id != id ==> r[i] == es[i]
  {
    Rows.Update(es, EntryId, id, (e: WaitlistEntry) => MergeDetails(e, f))
  }

  /** A details update never changes an id, a creation time, a type or a status. */
  lemma DetailsKeepBookkeeping(es: seq<WaitlistEntry>, id: int, f: WaitlistForm)
    ensures var r := WithDetails(es, id, f);
      forall i :: 0 <= i < |es| ==>
        r[i].id == es[i].id && r[i].createdAt == es[i].createdAt
        && r[i].waitlistType == es[i].waitlistType && r[i].status == es[i].status
  {
  }

  /** Setting a status twice is setting it once, and setting the status an
      entry already has changes nothing. */
  lemma StatusUpdateIdempotent(es: seq<WaitlistEntry>, id: int, status: string)
    ensures WithStatus(WithStatus(es, id, status), id, status) == WithStatus(es, id, status)
    ensures (forall i :: 0 <= i < |es| && es[i].id == id ==> es[i].status == status) ==>
      WithStatus(es, id, status) == es
  {
    var once := WithStatus(es, id, status);
    assert forall i :: 0 <= i < |es| ==> once[i].id == es[i].id;
    if forall i :: 0 <= i < |es| && es[i].id == id ==> es[i].status == status {
      assert forall i :: 0 <= i < |es| ==> once[i] == es[i];
    }
  }

  /** The colours the status switch chooses between. */
  datatype StatusColor = Blue | Orange | Purple | Green | Red | Gray | Slate

  /** The CSS classes of each colour. */
  function ClassName(c: StatusColor): string {
    match c
    case Blue => "text-blue-600 dark:text-blue-400"
    case Orange => "text-orange-600 dark:text-orange-400"
    case Purple => "text-purple-600 dark:text-purple-400"
    case Green => "text-green-600 dark:text-green-400"
    case Red => "text-red-600 dark:text-red-400"
    case Gray => "text-gray-500 dark:text-gray-400"
    case Slate => "text-slate-700 dark:text-slate-300"
  }

  /** The lower-case spellings the status switch matches, in the order of
      the status options. */
  const StatusKeys: seq<string> :=
    ["waiting", "contacted", "offer made", "accepted - pending", "fulfilled", "declined", "archived"]

  /** The switch of `getStatusColorClass` on an already lower-cased status. */
  function ColorOfKey(key: string): (c: StatusColor)
    ensures c != Slate <==> key in StatusKeys
    ensures c == Orange <==> key == StatusKeys[1] || key == StatusKeys[2]
  {
    if key == "waiting" then Blue
    else if key == "contacted" || key == "offer made" then Orange
    else if key == "accepted - pending" then Purple
    else if key == "fulfilled" then Green
    else if key == "declined" then Red
    else if key == "archived" then Gray
    else Slate
  }

  /** The colour of a status: the switch on the lower-cased status. */
  function ColorOf(status: string): (c: StatusColor)
    ensures c != Slate <==> Lower(status) in StatusKeys
    ensures c == Orange <==> Lower(status) == StatusKeys[1] || Lower(status) == StatusKeys[2]
  {
    ColorOfKey(Lower(status))
  }

  /** `getStatusColorClass`. */
  function StatusColorClass(status: string): string {
    ClassName(ColorOf(status))
  }

  /** The colour does not depend on letter case. */
  lemma StatusColorCaseInsensitive(s: string)
    ensures ColorOf(Lower(s)) == ColorOf(s)
  {
    LowerIdempotent(s);
  }

  /** Every key of the switch has a colour of its own, except that
      'contacted' and 'offer made' share one. */
  lemma KeyColors()
    ensures forall i :: 0 <= i < |StatusKeys| ==> ColorOfKey(StatusKeys[i]) != Slate
    ensures ColorOfKey(StatusKeys[1]) == ColorOfKey(StatusKeys[2])
    ensures forall i, j :: 0 <= i < j < |StatusKeys| && !(i == 1 && j == 2) ==>
      ColorOfKey(StatusKeys[i]) != ColorOfKey(StatusKeys[j])
  {
    assert ColorOfKey(StatusKeys[0]) == Blue;
    assert ColorOfKey(StatusKeys[1]) == Orange;
    assert ColorOfKey(StatusKeys[2]) == Orange;
    assert ColorOfKey(StatusKeys[3]) == Purple;
    assert ColorOfKey(StatusKeys[4]) == Green;
    assert ColorOfKey(StatusKeys[5]) == Red;
    assert ColorOfKey(StatusKeys[6]) == Gray;
  }

  /** A status that is no key in any letter case gets the default class. */
  lemma UnlistedStatusIsDefault(s: string)
    requires forall i :: 0 <= i < |StatusKeys| ==> Lower(s) != StatusKeys[i]
    ensures ColorOf(s) == Slate
  {
  }

  /** The message line under the add form and the lists. */
  datatype Notice =
    | NameRequired                              // "Name is required."
    | AddFailed(message: string)
    | Added                                     // "Entry added successfully!"
    | DeleteFailed(message: string)
    | Deleted(entryName: string)
    | StatusFailed(entryName: string, message: string)
    | StatusUpdated(entryName: string, status: string)
    | NameRequiredForEdit                       // "Name is required for editing."
    | DetailsFailed(entryName: string, message: string)
    | DetailsUpdated(entryName: string)
  {
    predicate IsError() {
      NameRequired? || AddFailed? || DeleteFailed? || StatusFailed? || NameRequiredForEdit? || DetailsFailed?
    }
  }

  /** The call a handler makes to the store. */
  datatype WaitlistCall =
    | NoCall
    | InsertEntry(row: NewEntryRow)
    | DeleteEntry(id: int)
    | UpdateStatus(id: int, status: string)
    | UpdateDetails(id: int, details: WaitlistForm)

  /** `if (processingEntryId)`: an id of 0 counts as nothing in progress. */
  predicate Busy(processing: Option<int>) {
    processing.Some? && processing.value != 0
  }

  class WaitlistPage {
    const waitlistType: string
    var addForm: WaitlistForm
    var editForm: WaitlistForm
    var isSubmittingAdd: bool
    var submitStatus: Option<Notice>
    var entries: seq<WaitlistEntry>
    var isLoadingEntries: bool
    var fetchEntriesError: Option<string>
    var processingEntryId: Option<int>
    var isStatusModalOpen: bool
    var entryToEditStatus: Option<WaitlistEntry>
    var selectedNewStatus: string
    var isEditDetailsModalOpen: bool
    var entryToEditDetails: Option<WaitlistEntry>

    /** The page before its first fetch. */
    constructor (waitlistType: string)
      ensures this.waitlistType == waitlistType
      ensures addForm == InitialForm && editForm == InitialForm
      ensures !isSubmittingAdd && submitStatus == None && entries == []
      ensures isLoadingEntries && fetchEntriesError == None && processingEntryId == None
      ensures !isStatusModalOpen && entryToEditStatus == None && selectedNewStatus == ""
      ensures !isEditDetailsModalOpen && entryToEditDetails == None
    {
      this.waitlistType := waitlistType;
      addForm, editForm := InitialForm, InitialForm;
      isSubmittingAdd, submitStatus, entries := false, None, [];
      isLoadingEntries, fetchEntriesError, processingEntryId := true, None, None;
      isStatusModalOpen, entryToEditStatus, selectedNewStatus := false, None, "";
      isEditDetailsModalOpen, entryToEditDetails := false, None;
    }

    /** `fetchEntries`: an error is reported and keeps the list; rows
        replace the list. */
    method FetchEntries(answer: Store.Fetch<WaitlistEntry>)
      modifies this`isLoadingEntries, this`fetchEntriesError, this`entries
      ensures !isLoadingEntries
      ensures fetchEntriesError == (if answer.FetchFailed? then Some(answer.message) else None)
      ensures entries == (if answer.Rows? then answer.rows else old(entries))
    {
      isLoadingEntries := true;
      fetchEntriesError := None;
      match answer {
        case FetchFailed(message) =>
          fetchEntriesError := Some(message);
        case Rows(rows) =>
          entries := rows;
        case NoData =>
      }
      isLoadingEntries := false;
    }

    /** The effect that runs when the page's type is set: a page without a
        type never fetches. */
    method Load(answer: Store.Fetch<WaitlistEntry>)
      modifies this`isLoadingEntries, this`fetchEntriesError, this`entries
      ensures waitlistType == "" ==> unchanged(this)
      ensures waitlistType != "" ==>
        && !isLoadingEntries
        && fetchEntriesError == (if answer.FetchFailed? then Some(answer.message) else None)
        && entries == (if answer.Rows? then answer.rows else old(entries))
    {
      if waitlistType != "" {
        FetchEntries(answer);
      }
    }

    /** `handleAddEntry`: `insert` answers the insert, `refetch` the reload
        that follows a successful one. */
    method HandleAddEntry(insert: Store.Outcome, refetch: Store.Fetch<WaitlistEntry>) returns (call: WaitlistCall)
      modifies this`isSubmittingAdd, this`submitStatus, this`addForm,
               this`isLoadingEntries, this`fetchEntriesError, this`entries
      ensures IsBlank(old(addForm.name)) ==>
        call == NoCall && submitStatus == Some(NameRequired) && isSubmittingAdd == old(isSubmittingAdd)
        && addForm == old(addForm) && entries == old(entries)
        && isLoadingEntries == old(isLoadingEntries) && fetchEntriesError == old(fetchEntriesError)
      ensures !IsBlank(old(addForm.name)) ==>
        call == InsertEntry(NewEntry(old(addForm), waitlistType)) && !isSubmittingAdd
      ensures !IsBlank(old(addForm.name)) && insert.Failed? ==>
        submitStatus == Some(AddFailed(insert.message)) && addForm == old(addForm) && entries == old(entries)
        && isLoadingEntries == old(isLoadingEntries) && fetchEntriesError == old(fetchEntriesError)
      ensures !IsBlank(old(addForm.name)) && insert.Succeeded? ==>
        submitStatus == Some(Added) && addForm == InitialForm && !isLoadingEntries
        && fetchEntriesError == (if refetch.FetchFailed? then Some(refetch.message) else None)
        && entries == (if refetch.Rows? then refetch.rows else old(entries))
    {
      if IsBlank(addForm.name) {
        submitStatus := Some(NameRequired);
        return NoCall;
      }
      isSubmittingAdd := true;
      submitStatus := None;
      call := InsertEntry(NewEntry(addForm, waitlistType));
      isSubmittingAdd := false;
      match insert {
        case Failed(message) =>
          submitStatus := Some(AddFailed(message));
        case Succeeded =>
          submitStatus := Some(Added);
          addForm := InitialForm;
          FetchEntries(refetch);
      }
    }

    /** `handleDeleteEntry`; `confirmed` is the answer to the prompt. */
    method HandleDeleteEntry(entryId: int, entryName: string, confirmed: bool, answer: Store.Outcome)
      returns (call: WaitlistCall)
      modifies this`processingEntryId, this`submitStatus, this`entries
      ensures old(processingEntryId) == Some(entryId) || !confirmed ==> call == NoCall && unchanged(this)
      ensures old(processingEntryId) != Some(entryId) && confirmed ==>
        && call == DeleteEntry(entryId) && processingEntryId == None
        && submitStatus == Some(if answer.Failed? then DeleteFailed(answer.message) else Deleted(entryName))
        && entries == (if answer.Succeeded? then WithoutEntry(old(entries), entryId) else old(entries))
    {
      if processingEntryId == Some(entryId) || !confirmed {
        return NoCall;
      }
      processingEntryId := Some(entryId);
      submitStatus := None;
      call := DeleteEntry(entryId);
      processingEntryId := None;
      match answer {
        case Failed(message) =>
          submitStatus := Some(DeleteFailed(message));
        case Succeeded =>
          submitStatus := Some(Deleted(entryName));
          entries := WithoutEntry(entries, entryId);
      }
    }

    method HandleOpenStatusEditor(entry: WaitlistEntry)
      modifies this`entryToEditStatus, this`selectedNewStatus, this`isStatusModalOpen, this`submitStatus
      ensures entryToEditStatus == Some(entry) && selectedNewStatus == entry.status
      ensures isStatusModalOpen && submitStatus == None
    {
      entryToEditStatus := Some(entry);
      selectedNewStatus := entry.status;
      isStatusModalOpen := true;
      submitStatus := None;
    }

    /** The status picker of the status editor. */
    method SelectNewStatus(status: string)
      modifies this`selectedNewStatus
      ensures selectedNewStatus == status
    {
      selectedNewStatus := status;
    }

    /** `handleConfirmStatusUpdate`: ignored without an entry, without a
        status, or while any entry is being processed. */
    method HandleConfirmStatusUpdate(answer: Store.Outcome) returns (call: WaitlistCall)
      modifies this`processingEntryId, this`submitStatus, this`entries, this`isStatusModalOpen, this`entryToEditStatus
      ensures old(entryToEditStatus).None? || old(selectedNewStatus) == "" || Busy(old(processingEntryId)) ==>
        call == NoCall && unchanged(this)
      ensures old(entryToEditStatus).Some? && old(selectedNewStatus) != "" && !Busy(old(processingEntryId)) ==>
        var e := old(entryToEditStatus).value;
        && call == UpdateStatus(e.id, selectedNewStatus) && processingEntryId == None
        && (answer.Failed? ==>
              submitStatus == Some(StatusFailed(e.name, answer.message)) && entries == old(entries)
              && isStatusModalOpen == old(isStatusModalOpen) && entryToEditStatus == old(entryToEditStatus))
        && (answer.Succeeded? ==>
              submitStatus == Some(StatusUpdated(e.name, selectedNewStatus))
              && entries == WithStatus(old(entries), e.id, selectedNewStatus)
              && !isStatusModalOpen && entryToEditStatus == None)
    {
      if entryToEditStatus.None? || selectedNewStatus == "" || Busy(processingEntryId) {
        return NoCall;
      }
      var e := entryToEditStatus.value;
      processingEntryId := Some(e.id);
      submitStatus := None;
      call := UpdateStatus(e.id, selectedNewStatus);
      match answer {
        case Failed(message) =>
          submitStatus := Some(StatusFailed(e.name, message));
        case Succeeded =>
          submitStatus := Some(StatusUpdated(e.name, selectedNewStatus));
          entries := WithStatus(entries, e.id, selectedNewStatus);
          isStatusModalOpen := false;
          entryToEditStatus := None;
      }
      processingEntryId := None;
    }

    method HandleOpenEditDetailsModal(entry: WaitlistEntry)
      modifies this`entryToEditDetails, this`editForm, this`isEditDetailsModalOpen, this`submitStatus
      ensures entryToEditDetails == Some(entry) && editForm == EditFormOf(entry)
      ensures isEditDetailsModalOpen && submitStatus == None
    {
      entryToEditDetails := Some(entry);
      editForm := EditFormOf(entry);
      isEditDetailsModalOpen := true;
      submitStatus := None;
    }

    /** `handleConfirmDetailsUpdate`: a missing entry or a blank name is
        reported; a busy page ignores the click. */
    method HandleConfirmDetailsUpdate(answer: Store.Outcome) returns (call: WaitlistCall)
      modifies this`processingEntryId, this`submitStatus, this`entries,
               this`isEditDetailsModalOpen, this`entryToEditDetails
      ensures old(entryToEditDetails).None? || IsBlank(editForm.name) ==>
        call == NoCall && submitStatus == Some(NameRequiredForEdit)
        && processingEntryId == old(processingEntryId) && entries == old(entries)
        && isEditDetailsModalOpen == old(isEditDetailsModalOpen) && entryToEditDetails == old(entryToEditDetails)
      ensures old(entryToEditDetails).Some? && !IsBlank(editForm.name) && Busy(old(processingEntryId)) ==>
        call == NoCall && unchanged(this)
      ensures old(entryToEditDetails).Some? && !IsBlank(editForm.name) && !Busy(old(processingEntryId)) ==>
        var e := old(entryToEditDetails).value;
        && call == UpdateDetails(e.id, editForm) && processingEntryId == None
        && (answer.Failed? ==>
              submitStatus == Some(DetailsFailed(e.name, answer.message)) && entries == old(entries)
              && isEditDetailsModalOpen == old(isEditDetailsModalOpen) && entryToEditDetails == old(entryToEditDetails))
        && (answer.Succeeded? ==>
              submitStatus == Some(DetailsUpdated(e.name))
              && entries == WithDetails(old(entries), e.id, editForm)
              && !isEditDetailsModalOpen && entryToEditDetails == None)
    {
      if entryToEditDetails.None? || IsBlank(editForm.name) {
        submitStatus := Some(NameRequiredForEdit);
        return NoCall;
      }
      if Busy(processingEntryId) {
        return NoCall;
      }
      var e := entryToEditDetails.value;
      processingEntryId := Some(e.id);
      submitStatus := None;
      call := UpdateDetails(e.id, editForm);
      match answer {
        case Failed(message) =>
          submitStatus := Some(DetailsFailed(e.name, message));
        case Succeeded =>
          submitStatus := Some(DetailsUpdated(e.name));
          entries := WithDetails(entries, e.id, editForm);
          isEditDetailsModalOpen := false;
          entryToEditDetails := None;
      }
      processingEntryId := None;
    }
  }

}
