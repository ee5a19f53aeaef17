/** The withdrawal-request page (src/pages/Payments.tsx): the list filter,
    the status badge, the pending-only approve/reject rule and the masked
    card number. */
module Payments {
  import opened Wrappers
  import opened Text
  import opened Badges
  import opened Lists
  import opened Search

  const AllStatuses: string := "all"
  const Pending: string := "pending"
  const Approved: string := "approved"
  const Rejected: string := "rejected"
  const Processed: string := "processed"

  /** The requesting user, as far as the list filter reads it. */
  datatype RequestUser = RequestUser(email: string, companyName: Option<string>)

  /** The payment method, as far as the card line reads it; `cardNumber` is
      `None` when the field is absent. */
  datatype PaymentMethod = PaymentMethod(cardNumber: Option<string>)

  datatype WithdrawalRequest = WithdrawalRequest(
    id: string,
    user: RequestUser,
    status: string,
    paymentMethod: PaymentMethod)

  // ---------------------------------------------------------------------------
  // The list filter

  /** The status test `(status ? r.status === status : true)`, where the
      filter value `"all"` (and the empty value) stands for no constraint. */
  predicate StatusFilterAccepts(status: string, statusFilter: string) {
    var wanted := if statusFilter == AllStatuses then "" else statusFilter;
    wanted == "" || status == wanted
  }

  /** The row test of `filteredRequests`: the query against
      `${email} ${company_name || ""}`, and the status filter. */
  predicate RequestMatches(r: WithdrawalRequest, query: string, statusFilter: string) {
    QueryMatches(SearchText(r.user.email, r.user.companyName), query)
    && StatusFilterAccepts(r.status, statusFilter)
  }

  /** `filteredRequests`: a response that is not an array (`None`) counts as
      no requests; otherwise the requests that match, in their order. */
  function FilterRequests(requests: Option<seq<WithdrawalRequest>>, query: string, statusFilter: string)
    : (shown: seq<WithdrawalRequest>)
    ensures requests.None? ==> shown == []
    ensures requests.Some? ==> |shown| <= |requests.value|
    ensures forall i :: 0 <= i < |shown| ==>
              requests.Some? && shown[i] in requests.value && RequestMatches(shown[i], query, statusFilter)
    ensures requests.Some? ==>
              forall i :: 0 <= i < |requests.value| && RequestMatches(requests.value[i], query, statusFilter) ==>
                requests.value[i] in shown
    ensures requests.Some? ==>
              forall x :: multiset(shown)[x] ==
                if RequestMatches(x, query, statusFilter) then multiset(requests.value)[x] else 0
  {
    var list := if requests.Some? then requests.value else [];
    Filter(list, r => RequestMatches(r, query, statusFilter))
  }

  /** The filtered list keeps the order of the requests it came from. */
  lemma FilterRequestsKeepsOrder(requests: seq<WithdrawalRequest>, query: string, statusFilter: string)
    ensures IsSubsequence(FilterRequests(Some(requests), query, statusFilter), requests)
  {
    FilterIsSubsequence(requests, r => RequestMatches(r, query, statusFilter));
  }

  /** Filtering the filtered list again with the same query and status
      changes nothing. */
  lemma FilterRequestsIdempotent(requests: seq<WithdrawalRequest>, query: string, statusFilter: string)
    ensures var once := FilterRequests(Some(requests), query, statusFilter);
            FilterRequests(Some(once), query, statusFilter) == once
  {
    FilterIdempotent(requests, r => RequestMatches(r, query, statusFilter));
  }

  /** A blank query with the `"all"` status keeps every request. */
  lemma BlankQueryAllStatusesKeepsEverything(requests: seq<WithdrawalRequest>, query: string)
    requires AllWhitespace(query)
    ensures FilterRequests(Some(requests), query, AllStatuses) == requests
  {
    forall i | 0 <= i < |requests|
      ensures RequestMatches(requests[i], query, AllStatuses)
    {
      BlankQueryMatchesAll(SearchText(requests[i].user.email, requests[i].user.companyName), query);
    }
    FilterKeepsAll(requests, r => RequestMatches(r, query, AllStatuses));
  }

  /** A status filter other than `"all"` keeps only requests with exactly
      that status. */
  lemma StatusFilterIsExact(requests: seq<WithdrawalRequest>, query: string, statusFilter: string, i: nat)
    requires statusFilter != AllStatuses && statusFilter != ""
    requires i < |FilterRequests(Some(requests), query, statusFilter)|
    ensures FilterRequests(Some(requests), query, statusFilter)[i].status == statusFilter
  {
  }

  // ---------------------------------------------------------------------------
  // Badge and actions

  /** `getStatusVariant` of the withdrawal page; unknown statuses, and
      `"pending"`, get `outline`. */
  function WithdrawalVariant(status: string): (v: Variant)
    ensures v == Default <==> status == Approved
    ensures v == Destructive <==> status == Rejected
    ensures v == Secondary <==> status == Processed
    ensures v == Outline <==> status !in {Approved, Rejected, Processed}
  {
    if status == Approved then Default
    else if status == Rejected then Destructive
    else if status == Processed then Secondary
    else Outline
  }

  datatype Decision = Approve | Reject

  /** The mutation the detail dialog issues: the request's id and its new
      status. */
  datatype StatusUpdate = StatusUpdate(requestId: string, status: string)

  /** The Approve and Reject buttons: offered only for a pending request,
      each issuing an update of that request to `"approved"` or
      `"rejected"`. */
  function DecisionUpdate(r: WithdrawalRequest, d: Decision): (u: Option<StatusUpdate>)
    ensures u.Some? <==> r.status == Pending
    ensures u.Some? ==> u.value.requestId == r.id
    ensures u.Some? ==> u.value.status == (if d == Approve then Approved else Rejected)
    ensures u.Some? ==> u.value.status != r.status
  {
    if r.status == Pending then Some(StatusUpdate(r.id, if d == Approve then Approved else Rejected)) else None
  }

  /** Once a decision is applied, no further decision is offered. */
  lemma DecisionIsFinal(r: WithdrawalRequest, d: Decision, next: Decision)
    requires DecisionUpdate(r, d).Some?
    ensures DecisionUpdate(r.(status := DecisionUpdate(r, d).value.status), next).None?
  {
  }

  // ---------------------------------------------------------------------------
  // Card number

  const CardMask: string := "****"

  /** `cardNumber.slice(-4)`: the last four characters, or all of them when
      there are fewer. */
  function LastFour(card: string): (tail: string)
    ensures |tail| == if |card| < 4 then |card| else 4
    ensures tail == card[|card| - |tail|..]
  {
    if |card| < 4 then card else card[|card| - 4..]
  }

  /** The "Card:" line of the payment details: absent for a missing or empty
      card number, otherwise `"****"` followed by the last four characters. */
  function MaskedCard(cardNumber: Option<string>): (shown: Option<string>)
    ensures shown.Some? <==> cardNumber.Some? && cardNumber.value != ""
    ensures shown.Some? ==> shown.value == CardMask + LastFour(cardNumber.value)
    ensures shown.Some? ==> 4 < |shown.value| <= 8 && shown.value[..4] == CardMask
    ensures shown.Some? ==> |shown.value| - 4 <= |cardNumber.value|
    ensures shown.Some? ==> shown.value[4..] == cardNumber.value[|cardNumber.value| - (|shown.value| - 4)..]
    ensures shown.Some? ==> |shown.value| == 4 + if |cardNumber.value| < 4 then |cardNumber.value| else 4
  {
    if cardNumber.Some? && cardNumber.value != "" then
      var shown := CardMask + LastFour(cardNumber.value);
      assert shown[..4] == CardMask && shown[4..] == LastFour(cardNumber.value);
      Some(shown)
    else None
  }
}
