/** The admin-accounts page (src/pages/Admins.tsx): the list filter and the
    status badge, and, as transitions of the page's state, the create-admin
    guard, the form reset after a successful create and the status change
    from the detail dialog. */
module Admins {
  import opened Wrappers
  import opened Text
  import opened Badges
  import opened Lists
  import opened Search

  /** An admin account as the page reads it; `fullName` and `phoneNumber`
      are `None` when the backend leaves them out. */
  datatype Admin = Admin(
    id: string,
    fullName: Option<string>,
    email: string,
    phoneNumber: Option<string>,
    status: string,
    role: string,
    isEmailVerified: bool,
    isPhoneVerified: bool)

  /** The statuses the detail dialog offers (`ALLOWED_STATUSES`). */
  datatype AccountStatus = Approved | Rejected | Pending | Banned {
    function Name(): string {
      match this
      case Approved => "approved"
      case Rejected => "rejected"
      case Pending => "pending"
      case Banned => "banned"
    }
  }

  const AllowedStatuses: seq<AccountStatus> := [Approved, Rejected, Pending, Banned]

  /** The allowed statuses are exactly these four names, each once. */
  lemma AllowedStatusNames()
    ensures |AllowedStatuses| == 4
    ensures forall i, j :: 0 <= i < j < |AllowedStatuses| ==> AllowedStatuses[i].Name() != AllowedStatuses[j].Name()
    ensures (set i | 0 <= i < |AllowedStatuses| :: AllowedStatuses[i].Name()) == {"approved", "rejected", "pending", "banned"}
  {
    var names := set i | 0 <= i < |AllowedStatuses| :: AllowedStatuses[i].Name();
    assert AllowedStatuses[0].Name() in names && AllowedStatuses[1].Name() in names;
    assert AllowedStatuses[2].Name() in names && AllowedStatuses[3].Name() in names;
  }

  // ---------------------------------------------------------------------------
  // The list filter and badge

  /** The row test of `filteredAdmins`: the query against
      `${email} ${full_name || ""}`. */
  predicate AdminMatches(a: Admin, query: string) {
    QueryMatches(SearchText(a.email, a.fullName), query)
  }

  /** `filteredAdmins`: a response that is not an array (`None`) counts as no
      admins; otherwise the admins that match, in their order. */
  function FilterAdmins(admins: Option<seq<Admin>>, query: string): (shown: seq<Admin>)
    ensures admins.None? ==> shown == []
    ensures admins.Some? ==> |shown| <= |admins.value|
    ensures forall i :: 0 <= i < |shown| ==> admins.Some? && shown[i] in admins.value && AdminMatches(shown[i], query)
    ensures admins.Some? ==>
              forall i :: 0 <= i < |admins.value| && AdminMatches(admins.value[i], query) ==> admins.value[i] in shown
    ensures admins.Some? ==>
              forall x :: multiset(shown)[x] == if AdminMatches(x, query) then multiset(admins.value)[x] else 0
  {
    var list := if admins.Some? then admins.value else [];
    Filter(list, a => AdminMatches(a, query))
  }

  /** The filtered list keeps the order of the admins it came from. */
  lemma FilterAdminsKeepsOrder(admins: seq<Admin>, query: string)
    ensures IsSubsequence(FilterAdmins(Some(admins), query), admins)
  {
    FilterIsSubsequence(admins, a => AdminMatches(a, query));
  }

  /** A blank or whitespace-only query lists every admin. */
  lemma BlankQueryListsAllAdmins(admins: seq<Admin>, query: string)
    requires AllWhitespace(query)
    ensures FilterAdmins(Some(admins), query) == admins
  {
    forall i | 0 <= i < |admins| ensures AdminMatches(admins[i], query) {
      BlankQueryMatchesAll(SearchText(admins[i].email, admins[i].fullName), query);
    }
    FilterKeepsAll(admins, a => AdminMatches(a, query));
  }

  /** The badge of an account status: `approved` is `default`, `banned` is
      `destructive`, every other status `secondary`. */
  function AccountVariant(status: string): (v: Variant)
    ensures v == Default <==> status == "approved"
    ensures v == Destructive <==> status == "banned"
    ensures v == Secondary <==> status != "approved" && status != "banned"
    ensures v != Outline
  {
    if status == "approved" then Default else if status == "banned" then Destructive else Secondary
  }

  // ---------------------------------------------------------------------------
  // Page state

  /** The create-admin form (`createForm`). */
  datatype CreateForm = CreateForm(fullName: string, email: string, password: string)

  const EmptyForm: CreateForm := CreateForm("", "", "")

  /** The user-status mutation: the account id and the new status name. */
  datatype StatusUpdate = StatusUpdate(userId: string, status: string)

  /** `{...prev, status}`: the admin with its status replaced and every other
      field as it was. */
  function WithStatus(a: Admin, status: string): (b: Admin)
    ensures b.status == status
    ensures b.id == a.id && b.fullName == a.fullName && b.email == a.email && b.phoneNumber == a.phoneNumber
    ensures b.role == a.role && b.isEmailVerified == a.isEmailVerified && b.isPhoneVerified == a.isPhoneVerified
  {
    a.(status := status)
  }

  /** Setting the status it already has changes nothing; setting it twice
      keeps the last. */
  lemma WithStatusLaws(a: Admin, s: string, t: string)
    ensures WithStatus(a, a.status) == a
    ensures WithStatus(WithStatus(a, s), t) == WithStatus(a, t)
  {
  }

  /** The state of the admin-accounts page that its handlers change. */
  class AdminsPage {
    var query: string
    var selectedAdmin: Option<Admin>
    var showCreateModal: bool
    var createForm: CreateForm

    /** The page as it first renders: no query, nothing selected, the create
        dialog closed and the form empty. */
    constructor ()
      ensures query == "" && selectedAdmin == None && !showCreateModal && createForm == EmptyForm
    {
      query := "";
      selectedAdmin := None;
      showCreateModal := false;
      createForm := EmptyForm;
    }

    /** `handleCreateAdmin`: submits nothing while a field is empty, and
        otherwise submits the form exactly as filled in. */
    method HandleCreateAdmin() returns (submitted: Option<CreateForm>)
      ensures submitted.None? <==> createForm.fullName == "" || createForm.email == "" || createForm.password == ""
      ensures submitted.Some? ==> submitted.value == createForm
    {
      if createForm.fullName == "" || createForm.email == "" || createForm.password == "" {
        return None;
      }
      return Some(createForm);
    }

    /** The create mutation's `onSuccess`: closes the dialog and empties the
        form; the list and the selection are untouched. */
    method OnCreateSuccess()
      modifies this
      ensures !showCreateModal && createForm == EmptyForm
      ensures query == old(query) && selectedAdmin == old(selectedAdmin)
    {
      showCreateModal := false;
      createForm := EmptyForm;
    }

    /** The status `Select` of the detail dialog, which is shown only while
        an admin is selected: the selected admin's status is rewritten, the
        update for that admin's id is issued, and the mutation's `onMutate`
        then clears the selection. */
    method ChangeStatus(newStatus: AccountStatus) returns (update: StatusUpdate, edited: Admin)
      requires selectedAdmin.Some?
      modifies this
      ensures update == StatusUpdate(old(selectedAdmin).value.id, newStatus.Name())
      ensures edited == WithStatus(old(selectedAdmin).value, newStatus.Name())
      ensures selectedAdmin == None
      ensures query == old(query) && showCreateModal == old(showCreateModal) && createForm == old(createForm)
    {
      var admin := selectedAdmin.value;
      edited := admin.(status := newStatus.Name());
      selectedAdmin := Some(edited);
      update := StatusUpdate(admin.id, newStatus.Name());
      selectedAdmin := None;
    }
  }
}
