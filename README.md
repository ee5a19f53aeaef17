# CarTransporter-Admin — the admin client's token store, login rule and page logic

This project models the logic core of the CarTransporter administration
client. That is the browser-side code an administrator uses to log in and to
review the platform's dashboard, withdrawal requests and admin accounts.

- **API configuration and token store** (`src/config/api.ts`). The base URL
  and login endpoint, and the bearer token kept in `localStorage` under the
  single key `"authToken"`. `LocalStorage` is a class over a
  `map<string, string>`. `StoreAuthToken`, `RemoveAuthToken`, `GetAuthToken`
  and `GetAuthHeader` are methods over it. Each one states its whole new
  state through the value functions `WithToken`, `WithoutToken`, `TokenIn`
  and `AuthHeaderFor`.
- **Login service** (`src/services/auth_services.ts`). `LoginOutcome` is the
  decision `login` makes from what it observes of the response: the `ok` flag
  and the parsed body, absent when the body does not parse. `Login` applies
  that decision to the store. `Logout` and `GetToken` are also modelled.
- **Dashboard** (`src/pages/Dashboard.tsx`):
  - the shipment-status badge variant and colour;
  - the shortened pickup and delivery addresses;
  - the five-shipment cap;
  - the metric cards and their defaults;
  - the precedence of the two load errors.
- **Withdrawal requests** (`src/pages/Payments.tsx`):
  - the text and status filter;
  - the status badge;
  - Approve and Reject, offered only for pending requests;
  - the masked card number.
- **Admin accounts** (`src/pages/Admins.tsx`). The text filter and the
  account badge are pure functions. The create guard, the form reset after a
  successful create and the status change are methods of the `AdminsPage`
  class. That class holds the page state its handlers change.

The JavaScript primitives the pages use are modelled in `Text` and `Lists`:
`toLowerCase`, `trim`, one-character `split`, `includes`, integer `toString`
and `Array.prototype.filter`. The search rule shared by the two list pages is
in `Search`.

## Model

| member | source | states |
|---|---|---|
| TokenStore.ApiBaseUrl | src/config/api.ts:1-2 | the configured base URL when it is set and non-empty, otherwise `http://localhost:5000/api`; never empty |
| TokenStore.LoginEndpoint | src/config/api.ts:4-8 | the login URL is the base URL followed by exactly `/admin/login` |
| TokenStore.WithToken | src/config/api.ts:15-17 | after `setItem`, the token read back is the one stored, the key set gains `authToken`, and every other entry is unchanged |
| TokenStore.WithoutToken | src/config/api.ts:19-21 | after `removeItem`, no token is read back, only `authToken` leaves the key set, and every other entry is unchanged |
| TokenStore.StoreTwiceKeepsLast | src/config/api.ts:16 | storing twice is the same as storing only the second token |
| TokenStore.StoreThenRemove | src/config/api.ts:15-21 | removing after storing leaves the storage as if only the removal happened |
| TokenStore.AuthHeaderFor | src/config/api.ts:10-13 | a header set exists exactly when the token is present and non-empty; its only key is `Authorization`, and its value is `Bearer ` followed by the token |
| TokenStore.AuthHeaderCarriesToken | src/config/api.ts:12 | the header value starts with `Bearer ` and the rest of it is the token |
| TokenStore.LocalStorage.constructor | src/config/api.ts:11 | the storage starts with the given entries |
| TokenStore.GetAuthHeader | src/config/api.ts:10-13 | returns the header for the stored token, non-empty exactly when a non-empty `authToken` entry exists; reads the storage without changing it |
| TokenStore.StoreAuthToken | src/config/api.ts:15-17 | the new entries are the old ones with the token stored under `authToken`, and reading the token back gives exactly it |
| TokenStore.RemoveAuthToken | src/config/api.ts:19-21 | the new entries are the old ones without `authToken`, and no token is read back |
| TokenStore.GetAuthToken | src/config/api.ts:23-25 | returns the `authToken` entry exactly when it exists; changes nothing |
| AuthService.LoginOutcome | src/services/auth_services.ts:30-48 | succeeds exactly when the response is ok with a non-empty token, returning that token; a non-ok response fails with the body's non-empty message, otherwise with `Login failed`; an unparsable body always fails with `Login failed`; the failure message is never empty |
| AuthService.Login | src/services/auth_services.ts:21-49 | returns the decision of `LoginOutcome`; on success the token is stored, replacing any earlier one, and no other entry changes; on failure the storage is untouched |
| AuthService.Logout | src/services/auth_services.ts:51-53 | afterwards no token is stored, and every other entry is unchanged |
| AuthService.GetToken | src/services/auth_services.ts:55-57 | returns the stored token and changes nothing |
| AuthService.LoginSession | src/services/auth_services.ts:47-57 | after a successful login the token read back is the one the response carried; after a failed one it is whatever was stored before; after logout it is gone, and the storage ends as it began with only the `authToken` entry removed |
| Dashboard.StatusVariant | src/pages/Dashboard.tsx:7-25 | ignoring case: `ended`/`completed` give `default`, `assigned`/`accepted` give `secondary`, `pending`/`created` give `destructive`, and every other status gives `outline`, including `in_transit`/`in_progress` and a missing status (each direction of each case) |
| Dashboard.StatusColor | src/pages/Dashboard.tsx:27-45 | ignoring case: red, green, indigo and amber classes for exactly the four status pairs, and gray for every other status |
| Dashboard.MissingStatus | src/pages/Dashboard.tsx:7-45 | a missing status reads as `""`, which gets `outline` and the gray classes |
| Dashboard.StatusRulesIgnoreCase | src/pages/Dashboard.tsx:8-28 | both rules give the same answer for a status and for its lower-cased form |
| Dashboard.ColorDeterminesVariant | src/pages/Dashboard.tsx:7-45 | two statuses with the same colour have the same variant, so both rules share one grouping |
| Dashboard.TruncateLocation | src/pages/Dashboard.tsx:48 | a missing or empty address is shown as `-` |
| Dashboard.TruncateWithoutComma | src/pages/Dashboard.tsx:51 | an address without a comma is shown whole, trimmed |
| Dashboard.TruncateWithComma | src/pages/Dashboard.tsx:49-50 | with a comma, the trimmed text before the first comma and the trimmed text up to the second comma (or the end) are joined by `", "`; the rest is dropped |
| Dashboard.TruncateFallbackUnreachable | src/pages/Dashboard.tsx:49-52 | splitting yields at least one part, so the final `address.trim()` branch is never taken |
| Dashboard.ShownRecentShipments | src/pages/Dashboard.tsx:166-168 | at most five shipments, exactly `min(5, n)` of them, which are the first ones in the order received; none when the data is not an array |
| Dashboard.CountText | src/pages/Dashboard.tsx:77-91 | `"0"` when the statistics or the count are missing; always canonical decimal text (optional `-`, digits, no leading zero), which for a present count reads back as it, and by `Text.CanonicalDecimalUnique` is the only such text |
| Dashboard.RevenueText | src/pages/Dashboard.tsx:98 | always starts with `$`; `$0` when the statistics are missing or the revenue is not a number; otherwise `$` followed by the formatted revenue |
| Dashboard.Cards | src/pages/Dashboard.tsx:74-103 | four cards titled Total Users, Total Shipments, Total Payments and Total Revenue, in that order, showing `0`, `0`, `0` and `$0` when no statistics arrived; once they arrive, each count card shows `CountText` of its count (`0` when that count is missing) and the revenue card `RevenueText` |
| Dashboard.ErrorMessage | src/pages/Dashboard.tsx:106-108 | the statistics error's message when non-empty, else the recent-shipments error's message; it is empty exactly when both are missing or empty |
| Payments.FilterRequests | src/pages/Payments.tsx:54-63 | empty for a response that is not an array; otherwise every matching request appears as often as in the input and no other request appears |
| Payments.FilterRequestsKeepsOrder | src/pages/Payments.tsx:58-62 | the filtered list is an order-preserving subsequence of the requests |
| Payments.FilterRequestsIdempotent | src/pages/Payments.tsx:58-62 | filtering the filtered list again with the same query and status changes nothing |
| Payments.BlankQueryAllStatusesKeepsEverything | src/pages/Payments.tsx:56-61 | a blank or whitespace-only query with the status `all` keeps every request, in order |
| Payments.StatusFilterIsExact | src/pages/Payments.tsx:57-61 | any status filter other than `all` (and empty) keeps only requests whose status equals it exactly |
| Payments.WithdrawalVariant | src/pages/Payments.tsx:65-76 | `approved` gives `default`, `rejected` gives `destructive`, `processed` gives `secondary`, and every other status gives `outline`, including `pending` (each direction of each case) |
| Payments.DecisionUpdate | src/pages/Payments.tsx:225-241 | an update is issued exactly for a pending request; it names that request's id and sets `approved` or `rejected`, according to the button, never the status it already has |
| Payments.DecisionIsFinal | src/pages/Payments.tsx:225 | once a decision is applied, neither button is offered again |
| Payments.LastFour | src/pages/Payments.tsx:299 | the last four characters of the card number, or all of them when there are fewer |
| Payments.MaskedCard | src/pages/Payments.tsx:298-299 | shown exactly for a present, non-empty card number; it is `****` followed by `LastFour` of the card, i.e. the card's last `min(4, length)` characters |
| Admins.AllowedStatusNames | src/services/users_services.ts:3-8 | the dialog offers exactly `approved`, `rejected`, `pending` and `banned`, each once |
| Admins.FilterAdmins | src/pages/Admins.tsx:75-79 | empty for a response that is not an array; otherwise every matching admin appears as often as in the input and no other admin appears |
| Admins.FilterAdminsKeepsOrder | src/pages/Admins.tsx:78 | the filtered admins are an order-preserving subsequence of the input |
| Admins.BlankQueryListsAllAdmins | src/pages/Admins.tsx:77-78 | a blank or whitespace-only query lists every admin |
| Admins.AccountVariant | src/pages/Admins.tsx:151 | `approved` gives `default`, `banned` gives `destructive`, and every other status gives `secondary` (each direction) |
| Admins.WithStatus | src/pages/Admins.tsx:270 | the admin with only its status replaced; every other field is as it was |
| Admins.WithStatusLaws | src/pages/Admins.tsx:270 | setting the status an admin already has changes nothing; setting it twice keeps the last |
| Admins.AdminsPage.constructor | src/pages/Admins.tsx:28-30 | no selection, the create dialog closed and the form empty |
| Admins.AdminsPage.HandleCreateAdmin | src/pages/Admins.tsx:70-73 | submits nothing exactly when one of full name, email and password is empty; otherwise submits the form unchanged |
| Admins.AdminsPage.OnCreateSuccess | src/pages/Admins.tsx:46-48 | the dialog is closed and the form is reset to three empty strings; the query and the selection are unchanged |
| Admins.AdminsPage.ChangeStatus | src/pages/Admins.tsx:269-272 | issues the update for the selected admin's id with the chosen status name; the edited admin differs from it only in status; afterwards nothing is selected (the mutation's `onMutate`, lines 65-67), and the rest of the page state is unchanged |
| Search.NormalizedQuery | src/pages/Payments.tsx:56 | the trimmed, lower-cased query is empty exactly when the query is blank; it is no longer than the query and has no upper-case letter |
| Search.BlankQueryMatchesAll | src/pages/Payments.tsx:60 | a blank query keeps every row |
| Search.NonBlankQueryMatches | src/pages/Payments.tsx:60 | a non-blank query keeps a row exactly when the lower-cased search text contains the trimmed, lower-cased query |
| Search.QueryMatchesIgnoresCase | src/pages/Admins.tsx:77-78 | lower-casing the row text, the query, or both does not change the match |
| Search.QueryMatchesIgnoresPadding | src/pages/Admins.tsx:77 | whitespace added around the query does not change the match |
| Text.ToLower | src/pages/Dashboard.tsx:8 | same length; each character lower-cased; no upper-case letter remains |
| Text.ToLowerIdempotent | src/pages/Dashboard.tsx:8 | lower-casing twice is lower-casing once |
| Text.Trim | src/pages/Dashboard.tsx:50-52 | no longer than the input; begins and ends with non-whitespace; empty exactly when the input is all whitespace |
| Text.TrimIsSlice | src/pages/Dashboard.tsx:50-52 | the result is the slice of the input starting where the leading whitespace ends, with only whitespace before and after it |
| Text.TrimToLower | src/pages/Payments.tsx:56 | trimming and lower-casing commute |
| Text.TrimPadding | src/pages/Payments.tsx:56 | trimming a string padded with whitespace on both sides gives the trimmed string |
| Text.Split | src/pages/Dashboard.tsx:49 | at least one part; no part contains the separator; joining the parts with it gives the input back; exactly one part when the separator does not occur |
| Text.SplitJoin | src/pages/Dashboard.tsx:49 | splitting a join of separator-free parts gives the parts back |
| Text.SplitFirstTwo | src/pages/Dashboard.tsx:49-50 | the first two parts are the text before the first separator and the text between it and the next one (or the end) |
| Text.NatToDecimalValue | src/pages/Dashboard.tsx:77 | the decimal digits of a count read back as that count |
| Text.IntToDecimal | src/pages/Dashboard.tsx:77 | `toString` of an integer with |n| <= 2^53 is canonical decimal text, starts with `-` exactly for negatives, and reads back as that integer |
| Text.CanonicalDecimalUnique | src/pages/Dashboard.tsx:77 | two canonical decimal texts that read back as the same number are the same text |
| Text.DigitsValueInjective | src/pages/Dashboard.tsx:77 | two digit strings without a leading zero that denote the same number are equal |
| Lists.Filter | src/pages/Payments.tsx:58 | no longer than the input; every element that satisfies the predicate is kept as many times as it occurs, and no other element is kept |
| Lists.FilterIsSubsequence | src/pages/Payments.tsx:58 | the kept elements stay in their original order |
| Lists.FilterKeepsAll | src/pages/Admins.tsx:78 | when every element satisfies the predicate, the list is returned as it is |
| Lists.FilterIdempotent | src/pages/Payments.tsx:58 | filtering twice with the same predicate is filtering once |

## Left out

- The network is not modelled. This covers the `fetch` call of `login`, the request body and the resource services under `src/services/`. `login` receives what it observes of the response: the `ok` flag and the parsed body, `None` when `res.json()` throws.
- `message` and `token` are modelled as strings, so `LoginOutcome` does not cover bodies where these fields hold another truthy JSON value.
- React Query is not modelled: caching, invalidation, refetching, loading and `isPending` flags. Nor is the rendering of the pages, their dialogs, layout, icons (`getStatusIcon`) or navigation.
- The login form of `src/pages/Login.tsx` is not modelled. It passes `{email, password}` where the service expects `identifier`, which the model does not depend on.
- `src/routes/RequireAuth.tsx` calls `authService.isAuthenticated()`, which `src/services/auth_services.ts` does not define, so there is nothing to model.
- The services refer to `API_ENDPOINTS.ADMIN`, which `src/config/api.ts` does not define. Only the login endpoint is modelled.
- Dashboard.RevenueText: `toLocaleString` is not modelled. The formatted text of a numeric revenue is an input (`RevenueNumber(localized)`). The same goes for `Intl.NumberFormat` amounts and dates.
- Dashboard.CountText: counts are integers. The `toString` of fractional, exponent-notation or non-finite numbers is not modelled, and the text matches JavaScript's only for counts with |count| <= 2^53 (see `Text.IntToDecimal`).
- Text.IntToDecimal: matches `Number.prototype.toString` only for |n| <= 2^53. A count is a double, and above 2^53 JavaScript prints the shortest digits that round-trip followed by zeros (`1152921504606846976` shows as `1152921504606847000`), whereas the model prints every digit of the integer.
- Payments.LastFour: strings are modelled as sequences of Unicode code points, not UTF-16 code units, so for a card holding a character outside the Basic Multilingual Plane `slice(-4)` counts differently (it can cut a surrogate pair) and the masked text differs.
- Text.ToLower: only the ASCII letters are lower-cased. The full Unicode case mapping of `toLowerCase` is not modelled.
- The `onChange` setters of the create form, the query and status inputs, and the dialog open and close handlers are not modelled. Only the `onSuccess` transition of the create mutation and the `onMutate` transition of the status mutation are.
- The withdrawal page's `onSuccess`, which clears the selected request, is not modelled. Only the update each button issues is modelled.
- Admins.AdminsPage.ChangeStatus: requires a selected admin, because the status `Select` is only rendered inside the detail dialog that a selection opens.
- AuthService.Login: `localStorage` is modelled as never failing. In a browser `setItem` and `getItem` can throw (a full quota, storage denied), and `login` then rejects after an ok response with a token; the model has no such failure, because the storage's failure modes belong to the browser, not to this code.
