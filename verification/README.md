# taopiaopiao front end — a Dafny model of its decision rules

taopiaopiao is a ticketing site. It has two browser front ends:

- an admin console, where operators manage events, sessions and venues;
- a storefront, where shoppers browse events.

Both are plain JavaScript over a JSON API. Under the DOM and `fetch` glue
sits a set of small, deterministic rules. This project states those rules as
pure Dafny functions over abstract inputs and proves what the pages promise
about them:

- the list pages: query composition, the total-count fallback, the
  page-button window with its ellipses, the "showing start-end" range, the
  `goToPage` guard, and the page reset on a filter change;
- the session status → row actions table, and the fixed action sets of the
  other lists;
- price ranges, price, number and date texts;
- the session, event and venue editors: form snapshot → JSON payload, with
  defaults, skipped rows, seat sums, pre-submit validation and PUT versus POST;
- the token store, two key/value scopes (`sessionStorage`, `localStorage`);
- the two request wrappers: response classification and GET URL composition;
- the storefront home page: filter state, scroll paging and cover gradients.

Modules follow the source files. `Js` holds the JavaScript semantics the
pages lean on:

- truthiness;
- `trim`;
- `parseInt`, with NaN as `None`;
- `String(n)` and `padStart(2, '0')`;
- thousands grouping.

The shared modules are:

- `Query`: URLSearchParams order and object spread;
- `Pager`: the page-button bar;
- `ListView`: the list controller that the three guarded list pages
  instantiate;
- `Prices`: amounts in fen (integer cents);
- `Dates`: the pad-and-join step over integer date fields;
- `Http`: calls, headers and the business-code check;
- `FormData`: form snapshots, checkbox groups and the save alert.

Inputs the pages read from the outside world become parameters:

- the values of form controls;
- the API's reply, or its failure;
- the answer to `confirm`;
- whether a scroll reached the bottom.

## Model

| member | source | states |
|---|---|---|
| Pager.CeilDiv | frontend-admin/assets/js/session-list.js:68 | `Math.ceil(a / b)`: the least page count whose pages hold all a records |
| Pager.PageItems | frontend-admin/assets/js/session-list.js:292-301 | the page buttons lie in [1, totalPages], rise strictly, and are exactly the first, the last, and the pages within two of the current one |
| Pager.PageItemsIsWindow | frontend-admin/assets/js/session-list.js:292-301 | for a current page in range, the loop emits first page, an ellipsis iff pages 2..current-3 are hidden, current±2, an ellipsis iff pages current+3..last-1 are hidden, last page |
| Pager.PageItemsGaps | frontend-admin/assets/js/session-list.js:297-299 | between two consecutive page buttons there is an ellipsis exactly when they are not adjacent, and then only one, at current-3 or current+3 |
| Pager.ScanIncreasing | frontend-admin/assets/js/session-list.js:292-301 | the loop emits page buttons in strictly increasing order |
| Pager.ScanBounds | frontend-admin/assets/js/session-list.js:292-296 | every button the loop emits is a page of the scanned interval that passes the first/last/±2 test |
| Pager.GoToPage | frontend-admin/assets/js/session-list.js:314-318 | a page outside [1, totalPages] is ignored; any other page becomes current and reloads |
| Pager.GoToPageKeepsRange | frontend-admin/assets/js/session-list.js:314-318 | `goToPage` keeps the current page within [1, max(totalPages, 1)] |
| Pager.MakeBar | frontend-admin/assets/js/session-list.js:289-304 | Previous is disabled iff current is 1, Next iff current is the last page; Previous targets current − 1 and Next current + 1; in range, every enabled button's target is accepted by `goToPage` |
| Pager.PrevThenNext | frontend-admin/assets/js/session-list.js:289-318 | from a page after the first, Previous moves one page back and Next there comes back; from a page before the last, Next moves one page on |
| Pager.GuardedBar | frontend-admin/assets/js/session-list.js:281-284 | no bar at all exactly when the list is empty or has at most one page |
| Pager.Range | frontend-admin/assets/js/session-list.js:271-272 | an empty list shows "0-0" on any page; otherwise it is the unguarded range |
| Pager.RangeUnguarded | frontend-admin/assets/js/venue-list.js:82-83 | the end never exceeds the total, and a page from 1 on starts at 1 or later |
| Pager.RangeIsCurrentPage | frontend-admin/assets/js/session-list.js:271-272 | on a page in range of a non-empty list: 1 ≤ start ≤ end, at most pageSize records, and record j is shown iff it belongs to the current page |
| Pager.UnguardedEmptyRange | frontend-admin/assets/js/venue-list.js:82-83 | on an empty list, any page: the guarded range is "0-0", the unguarded one ends at 0 and starts after its end ("1-0" on the first page) |
| ListView.TotalRecords | frontend-admin/assets/js/session-list.js:66-67 | the first non-zero of total, count and the row count, else 0; zero exactly when all three are falsy |
| ListView.CountsFromRowsAlone | frontend-admin/assets/js/event-list.js:48-50 | a reply without counts holding at most a page of rows gives exactly one page of those rows |
| ListView.ListQuery | frontend-admin/assets/js/session-list.js:47-58 | page and pageSize first, then each non-empty filter value in order; fails exactly when a filter control is missing |
| ListView.QueryCarriesFilters | frontend-admin/assets/js/session-list.js:51-58 | reading the query back gives the page, the page size, and each filter's value iff it is non-empty |
| ListView.Step | frontend-admin/assets/js/session-list.js:28-39 | search and Enter reload from page 1; a select reloads from page 1 iff it has a change listener; other keys and edits leave the page alone; a pager click is `goToPage` |
| ListView.ReplayKeepsRange | frontend-admin/assets/js/session-list.js:314-318 | while the page count stays fixed, no sequence of searches, edits and pager clicks moves the page outside [1, max(totalPages, 1)] |
| ListView.ReplayKeepsFilters | frontend-admin/assets/js/event-list.js:159-185 | searches, key presses and pager clicks never change a filter value |
| ListView.Load | frontend-admin/assets/js/session-list.js:66-68 | the rows and count follow the fallback chain; pages = ceil(count/pageSize), positive iff the count is; the guarded range and bar |
| ListView.BadgeOf | frontend-admin/assets/js/session-list.js:137 | a mapped status shows its badge; an unmapped one shows its raw text in `badge-secondary` |
| ListView.Confirmed | frontend-admin/assets/js/session-list.js:364-374 | nothing is sent without the confirm; the list reloads iff the call succeeded |
| SessionList.SessionQuery | frontend-admin/assets/js/session-list.js:47-58 | the session query carries keyword (trimmed), status and eventId exactly when non-empty |
| SessionList.ConfigFor | frontend-admin/assets/js/session-list.js:116-119 | the event select reloads on change exactly when the event list has loaded; the status select never does |
| SessionList.ResetRules | frontend-admin/assets/js/session-list.js:23-119 | search and Enter go back to page 1 without touching filters; a new event choice goes back to page 1 exactly when the event list has loaded, and otherwise only changes the filter; the status select alone does not reload |
| SessionList.BadgeFallback | frontend-admin/assets/js/session-list.js:14-20 | the grey fallback class marks exactly the unmapped statuses, and mapped statuses have distinct badges |
| SessionList.Actions | frontend-admin/assets/js/session-list.js:217-264 | the first button is always view |
| SessionList.ActionsTable | frontend-admin/assets/js/session-list.js:217-264 | membership of each button by status: not_started edit/publish/delete, on_sale edit/retract, off_sale edit/publish and delete iff no seat sold, unknown edit/retract |
| SessionList.ActionsSane | frontend-admin/assets/js/session-list.js:217-264 | no button appears twice, and no status button targets the session's own status |
| SessionList.ViewOnly | frontend-admin/assets/js/session-list.js:249-255 | only view is offered exactly for sold_out and ended |
| SessionList.EffectivePrice | frontend-admin/assets/js/session-list.js:184 | a non-zero override wins over the tier price; a zero override counts as none |
| SessionList.PriceRange | frontend-admin/assets/js/session-list.js:178-193 | "-" without tiers; otherwise the range label of the tiers' effective prices |
| SessionList.PriceRangeDash | frontend-admin/assets/js/session-list.js:178-193 | the cell shows "-" exactly when no tier has an effective price |
| SessionList.AgreesWithStorefront | frontend-admin/assets/js/session-list.js:178-193 | without overrides, the admin cell equals the storefront's `getPriceRange` of the same tiers |
| SessionList.FormatNumber | frontend-admin/assets/js/session-list.js:395-398 | "0" for null, otherwise the number grouped by three digits with ',' |
| SessionList.FormatNumberReadsBack | frontend-admin/assets/js/session-list.js:395-398 | removing the separators gives the plain decimal text, which parses back to the number |
| SessionList.ChangeStatus | frontend-admin/assets/js/session-list.js:337-359 | after the confirm, one PUT to the session's status endpoint with the target status; reload iff it succeeded |
| SessionList.DeleteSession | frontend-admin/assets/js/session-list.js:364-374 | after the confirm, one DELETE of the session; reload iff it succeeded |
| EventList.EventQuery | frontend-admin/assets/js/event-list.js:33-40 | the event query carries trimmed keyword, status and type exactly when non-empty |
| EventList.ResetRules | frontend-admin/assets/js/event-list.js:159-185 | search, Enter and both selects reload from page 1 and keep the filter values |
| EventList.BadgeFallback | frontend-admin/assets/js/event-list.js:77 | an unmapped status shows its raw value in `badge-secondary`, the class the mapped draft badge also uses, so an unmapped status looks like a draft exactly when it reads "草稿" |
| EventList.RowActionsIgnoreStatus | frontend-admin/assets/js/event-list.js:89-93 | the row actions do not depend on the status |
| EventList.DeleteEvent | frontend-admin/assets/js/event-list.js:204-222 | after the confirm, the first call is the status change to off_sale |
| EventList.DeleteEventFallback | frontend-admin/assets/js/event-list.js:204-222 | DELETE is sent iff the retract failed; the list reloads iff one of the two succeeded; at most two calls |
| VenueList.VenueQuery | frontend/assets/js/venue-list.js:23-29 | the venue query carries trimmed keyword and city exactly when non-empty |
| VenueList.ResetRules | frontend/assets/js/venue-list.js:144-157 | search and Enter go back to page 1 without touching the filters; the city select does not reload |
| VenueList.LoadShape | frontend/assets/js/venue-list.js:37-39 | ten rows a page, the count fallback, the guarded range and the guarded bar |
| VenueList.DeleteVenue | frontend/assets/js/venue-list.js:176-186 | after the confirm, one DELETE; reload iff it succeeded |
| AdminVenueList.VenueQuery | frontend-admin/assets/js/venue-list.js:23-29 | the query carries trimmed keyword and city exactly when non-empty |
| AdminVenueList.ResetRules | frontend-admin/assets/js/venue-list.js:127-140 | search and Enter go back to page 1 without touching the filters |
| AdminVenueList.TotalPages | frontend-admin/assets/js/venue-list.js:33-34 | `result.total` is used as is: a count gives ceil(n/10), null gives 0, a missing total gives NaN |
| AdminVenueList.ShowRange | frontend-admin/assets/js/venue-list.js:82-83 | start is never guarded; end is min(current·10, total), and NaN without a total |
| AdminVenueList.AdminBar | frontend-admin/assets/js/venue-list.js:90-110 | hidden iff pages ≤ 1; with NaN pages a bar with no page buttons and an enabled Next |
| AdminVenueList.AdminGoToPage | frontend-admin/assets/js/venue-list.js:118-122 | the shared guard for a numeric page count; with NaN pages every p ≥ 1 is accepted |
| AdminVenueList.Load | frontend-admin/assets/js/venue-list.js:33-36 | a missing list renders no rows; pages, range and bar as above |
| AdminVenueList.AgreesWhenPositive | frontend-admin/assets/js/venue-list.js:81-110 | with a positive total this copy shows what the guarded copies show |
| AdminVenueList.EmptyListRange | frontend-admin/assets/js/venue-list.js:82-83 | on an empty list it reads "1-0" where the guarded copies read "0-0" |
| AdminVenueList.NextUnbounded | frontend-admin/assets/js/venue-list.js:110-122 | without a total, k presses of Next move k pages past the current one, with no upper bound |
| AdminVenueList.DeleteVenue | frontend-admin/assets/js/venue-list.js:159-169 | after the confirm, one DELETE; reload iff it succeeded |
| Prices.SpreadOf | frontend/assets/js/client-constants.js:99-103 | no price iff every price is null; one price iff all non-null prices agree; otherwise min < max, both present, bounding every price |
| Prices.RangeLabel | frontend/assets/js/client-constants.js:97-104 | "-" for missing or empty tiers; otherwise the label of the spread |
| Prices.LabelInjective | frontend/assets/js/client-constants.js:101-103 | distinct spreads get distinct labels, so the label determines min and max |
| Prices.YuanInjective | frontend/assets/js/client-constants.js:89 | distinct amounts in fen print differently as yuan |
| ClientConstants.TextOf | frontend/assets/js/client-index.js:182 | the shown text is the raw key exactly when the table has no non-empty name for it other than the key, otherwise one of the table's names; it is empty only for an empty key |
| ClientConstants.TextFallsBackExactly | frontend/assets/js/client-constants.js:20-50 | a type or seat mode is shown raw exactly when the table lacks it |
| ClientConstants.HiddenStatuses | frontend/assets/js/client-constants.js:10-41 | draft, cancelled and ended have no badge; the event table agrees with the session table on the statuses it has |
| ClientConstants.FormatPrice | frontend/assets/js/client-constants.js:87-90 | "-" exactly for null; otherwise '¥' followed by the yuan amount |
| ClientConstants.FormatPriceInjective | frontend/assets/js/client-constants.js:87-90 | distinct prices print differently, null included |
| ClientConstants.ZeroIsPriced | frontend/assets/js/client-constants.js:88 | a zero price prints "¥0": the test is for null, not truthiness |
| ClientConstants.FormatSeatCount | frontend/assets/js/client-constants.js:111-114 | "-" for null; otherwise the grouped count |
| ClientConstants.SeatCountReadsBack | frontend/assets/js/client-constants.js:111-114 | the grouped count without separators parses back to the count, and "-" is told apart from every count |
| Dates.FormatDateTime | frontend/assets/js/client-constants.js:57-66 | "-" exactly for a falsy argument |
| Dates.FormatDate | frontend/assets/js/client-constants.js:73-80 | "-" exactly for a falsy argument |
| Dates.FormatDateTimeLocal | frontend/assets/js/event-edit.js:357-366 | "" exactly for a falsy argument |
| Dates.FormatInputDate | frontend/assets/js/event-edit.js:372-395 | "" exactly for a falsy or invalid date; otherwise the storefront's date text |
| Dates.FormatDateTimeRoundTrip | frontend-admin/assets/js/session-list.js:379-390 | reading back "Y-MM-DD HH:mm" gives the calendar fields it was printed from |
| Dates.FormatDateTimeLocalRoundTrip | frontend/assets/js/event-edit.js:357-366 | reading back "Y-MM-DDTHH:mm" and the input date gives the fields back |
| Dates.DateIsPrefixOfDateTime | frontend/assets/js/client-constants.js:57-80 | the date text is a prefix of the date-time text for every argument |
| Dates.LocalDiffersOnlyInSeparator | frontend/assets/js/event-edit.js:357-366 | the two date-time texts differ only in the separator, ' ' against 'T' |
| Dates.InvalidUnreadable | frontend/assets/js/client-constants.js:59-65 | the text printed for an Invalid Date reads back as no date at all |
| Dates.ReadStampOfStamp | frontend/assets/js/client-constants.js:60-65 | zero padding of month, day, hours and minutes makes every printed stamp read back |
| Js.Trim | frontend-admin/assets/js/venue-edit.js:99-102 | no white space is left at either end, all-space text trims to "", and text without white space at its ends is left alone |
| Js.Pad2 | frontend/assets/js/client-constants.js:61-64 | `String(n).padStart(2, '0')`: at least two digits, exactly two below 100, and parsing gives n back |
| Js.GroupThousands | frontend-admin/assets/js/session-list.js:397 | the grouping inserts only commas, every three digits from the right |
| Js.GroupedIntReadsBack | frontend-admin/assets/js/session-list.js:397 | the grouped text without its commas is the plain decimal text of the number |
| Query.Encode | frontend-admin/assets/js/api.js:86 | the query string is empty exactly when there are no parameters |
| Query.WithQuery | frontend-admin/assets/js/api.js:86-87 | the URL is left alone for no parameters; otherwise URL, '?', query |
| Query.Lookup | frontend-admin/assets/js/api.js:86 | a key reads back the value of a parameter carrying it, and nothing exactly when no parameter carries it |
| Query.DecodeEncode | frontend-admin/assets/js/api.js:86 | reading back the query string gives the parameters in insertion order |
| Query.SpreadWins | frontend/assets/js/client-events.js:21-27 | in `{ ...defaults, ...params }` a key reads the caller's value when given, else the default |
| Http.GetCall | frontend-admin/assets/js/api.js:85-89 | a GET whose URL gains a query exactly when there are parameters |
| Http.GetCallReadsBack | frontend/assets/js/client-api.js:64-67 | the GET URL splits back into the path and the parameters |
| Http.BaseHeaders | frontend-admin/assets/js/api.js:15-18 | Content-Type plus the caller's headers, the caller's winning |
| Http.ByCode | frontend/assets/js/client-api.js:44-50 | only business code 200 yields the data; otherwise the server's msg or the default |
| Js.Get | frontend/assets/js/auth.js:14 | `getItem`, `formData.get` and a `dataset` read are null exactly for an absent key, and otherwise give the stored text |
| Auth.Either | frontend/assets/js/auth.js:14 | `a \|\| b`: the first value when it is non-empty, else the second |
| Auth.GetUserInfo | frontend/assets/js/auth.js:42-46 | a non-empty session-scope user text wins; null exactly when neither scope holds a non-empty one |
| Auth.SaveToken | frontend/assets/js/auth.js:23-36 | both keys written to session scope; written to local scope with remember, removed from it without |
| Auth.ClearToken | frontend/assets/js/auth.js:59-64 | all four keys are gone |
| Auth.SaveThenGet | frontend/assets/js/auth.js:13-15 | after a save `getToken()` is the saved token (when non-empty) and the user text reads back |
| Auth.RememberScope | frontend/assets/js/auth.js:29-35 | a remembered login survives a restart; an unremembered one leaves no stale local token |
| Auth.ClearSignsOut | frontend/assets/js/auth.js:52-64 | after `clearToken` nobody is signed in, other keys are kept, and clearing is idempotent |
| Auth.SaveKeepsOtherKeys | frontend/assets/js/auth.js:23-36 | saving never touches other keys of either scope |
| Auth.SessionWins | frontend/assets/js/auth.js:13-15 | a non-empty session-scope token is the token, whatever local scope holds |
| Auth.Logout | frontend/assets/js/auth.js:69-86 | the logout POST carries the bearer token iff signed in; the store ends cleared and the page goes to login |
| Auth.LogoutSignsOut | frontend/assets/js/auth.js:80-85 | the state after logout is signed out whether or not the server call fails |
| Api.AdminHeaders | frontend-admin/assets/js/api.js:13-22 | the Authorization header is set iff a token exists, as "Bearer " + token; other caller headers are kept |
| Api.Classify | frontend-admin/assets/js/api.js:41-63 | the only redirect ever made goes to the login page |
| Api.ClassifyOk | frontend-admin/assets/js/api.js:59-63 | data comes back exactly for a JSON reply with status neither 401 nor 403 and code 200 |
| Api.ClassifySignsOut | frontend-admin/assets/js/api.js:47-51 | the store changes only on a JSON 401, which clears it and goes to login |
| Api.NonJson401KeepsToken | frontend-admin/assets/js/api.js:41-47 | a 401 whose body is not JSON rejects while parsing and keeps the token |
| Api.ForbiddenWins | frontend-admin/assets/js/api.js:54-56 | 403 is refused even with code 200, with the server's msg or the default |
| Api.StatusIgnored | frontend-admin/assets/js/api.js:59-63 | any other status, a server error included, yields the data when the code is 200 |
| Api.AdminGet | frontend-admin/assets/js/api.js:85-89 | `get` composes the GET URL and authorises iff signed in |
| ClientApi.StatusMessage | frontend/assets/js/client-api.js:26 | the status failure message starts with "HTTP " |
| ClientApi.ClientHeaders | frontend/assets/js/client-api.js:13-16 | exactly the caller's headers and Content-Type |
| ClientApi.NoAuthorization | frontend/assets/js/client-api.js:13-16 | an Authorization header is sent only when the caller passes one |
| ClientApi.ClientClassify | frontend/assets/js/client-api.js:25-27 | a non-ok status fails with the status message before the body is looked at |
| ClientApi.ClientClassifyOk | frontend/assets/js/client-api.js:25-50 | data comes back exactly for a 2xx JSON reply with code 200 |
| ClientApi.CheckOrder | frontend/assets/js/client-api.js:30-48 | the content type is checked before the code, and the code before the data |
| ClientApi.StatusMessageDistinct | frontend/assets/js/client-api.js:26-35 | the status failure, the not-JSON failure and the default business failure '请求失败' are pairwise distinct (a server's own `msg` may read like any of them) |
| ClientApi.ClientGet | frontend/assets/js/client-api.js:64-67 | a GET of the composed URL, never authorised |
| ClientIndex.Apply | frontend/assets/js/client-index.js:50-57 | the group label picks exactly one of category, time and sort to update; any other label changes nothing |
| ClientIndex.Params | frontend/assets/js/client-index.js:92-100 | page and pageSize always; a type exactly when the category is not 'all' |
| ClientIndex.RequestCarriesFilter | frontend/assets/js/client-index.js:92-104 | after the defaults are spread, the request reads the current page, twenty a page, the type iff not 'all', and never time or sort |
| ClientIndex.Load | frontend/assets/js/client-index.js:104-137 | pages = ceil((total \|\| 0)/20); an empty list shows the empty state and keeps the grid; a non-empty one replaces it; a failure shows the empty state |
| ClientIndex.LoadMore | frontend/assets/js/client-index.js:230-256 | the reply's events are appended to the existing cards; nothing changes without a cards container |
| ClientIndex.Step | frontend/assets/js/client-index.js:33-73 | a labelled click resets to page 1 and reloads with the new filter; a scroll requests the next page iff near the bottom and before the last page |
| ClientIndex.ReplayKeepsPage | frontend/assets/js/client-index.js:70-73 | no sequence of clicks and scrolls takes the page past the announced page count |
| ClientIndex.ScrollAppends | frontend/assets/js/client-index.js:244-251 | the cards before a scroll are a prefix of those after it |
| ClientIndex.EmptyReplyKeepsCards | frontend/assets/js/client-index.js:114-117 | a click whose reply is empty shows the empty state but leaves the old cards |
| ClientIndex.CoverGradient | frontend/assets/js/client-index.js:214-225 | the type's gradient, the default for any type the table lacks |
| ClientIndex.CoverFallback | frontend/assets/js/client-index.js:214-225 | the default is shown exactly for concerts and unknown types |
| FormData.TrimmedOrEmpty | frontend-admin/assets/js/session-edit.js:542 | `get(name)?.trim() \|\| ''`: the trimmed text, '' for a missing field, always trimmed |
| FormData.Alert | frontend-admin/assets/js/session-edit.js:582 | the failure alert shows the error's message after the fixed prefix |
| FormData.AlertAsWritten | frontend-admin/assets/js/session-edit.js:582 | the alert as written starts with the fixed prefix |
| FormData.AlertInjective | frontend-admin/assets/js/session-edit.js:582 | the corrected alert tells every two messages apart; as written every alert is the same |
| FormData.Checked | frontend/assets/js/event-edit.js:286-289 | at most one value per box |
| FormData.CheckedOne | frontend/assets/js/event-edit.js:286-289 | one box gives its value exactly when it is checked |
| FormData.CheckedAppend | frontend-admin/assets/js/venue-edit.js:120-123 | the values of a group split in two are those of the first part followed by those of the second: document order is kept |
| FormData.CheckedMembers | frontend-admin/assets/js/venue-edit.js:120-123 | a value is collected exactly when a checked box carries it |
| FormData.Tick | frontend-admin/assets/js/venue-edit.js:64-65 | ticks only the first box carrying the value; values and other boxes stay |
| FormData.TickAllMembers | frontend-admin/assets/js/venue-edit.js:62-67 | after the backfill a value is checked exactly when it was already, or is listed and has a box |
| SessionEdit.TierOf | frontend-admin/assets/js/session-edit.js:507-525 | seats default to 0; maxPurchase 4 when missing, NaN or 0; enabled unless unchecked |
| SessionEdit.Collect | frontend-admin/assets/js/session-edit.js:504-526 | at most one entry per row |
| SessionEdit.CollectAppend | frontend-admin/assets/js/session-edit.js:506-526 | collection works row by row and keeps document order |
| SessionEdit.CollectMembers | frontend-admin/assets/js/session-edit.js:515-525 | an entry is collected exactly when a row with a tier id builds it |
| SessionEdit.AvailableIsEnabledSum | frontend-admin/assets/js/session-edit.js:530 | the available total is the sum over the enabled tiers only |
| SessionEdit.TotalsAppend | frontend-admin/assets/js/session-edit.js:529-530 | both totals add up tier by tier |
| SessionEdit.DisabledTier | frontend-admin/assets/js/session-edit.js:529-530 | a disabled tier adds its seats to the total and nothing to the available seats |
| SessionEdit.MetadataOf | frontend-admin/assets/js/session-edit.js:533-543 | duration and sort order parsed when filled, 120 and 0 when empty, sale times null when empty, seat mode 'online', each flag iff 'on', remark trimmed |
| SessionEdit.Build | frontend-admin/assets/js/session-edit.js:490-564 | rejected without date or start time; a payload has the page's event id parsed, the session name trimmed or null, the venue id parsed or null when empty, hall and address trimmed or '', the collected tiers, totalSeats their seat sum (positive) and availableSeats the sum over the enabled ones, start "date T time :00", an end iff the end field is filled, status default 'not_started' |
| SessionEdit.BuildRejects | frontend-admin/assets/js/session-edit.js:562-564 | the seat check fails exactly when date and start are given and the seat total is not positive |
| SessionEdit.AlertLosesMessage | frontend-admin/assets/js/session-edit.js:580-582 | as written, the date check and the seat check produce the same alert; corrected, they differ |
| SessionEdit.Target | frontend-admin/assets/js/session-edit.js:569-576 | PUT to the session when an id is present, POST otherwise |
| SessionEdit.Submit | frontend-admin/assets/js/session-edit.js:472-589 | a request is sent iff the payload was built; a rejection, a failed request, or a created session whose reply is null is caught and ends with the alert as written, "保存失败: undefined", on the page; otherwise the one success alert and back to the event's session list; the button is restored in every case |
| SessionEdit.Settle | frontend-admin/assets/js/session-edit.js:568-589 | once the payload is built (or refused): a request iff it was built, PUT with a session id and POST without; a refusal or a failed request ends with the alert as written and no redirect; a POST answered with null data alerts "创建成功" and then the failure alert; otherwise back to the event's session list; the button is restored in every case |
| SessionEdit.CreatedThenFailed | frontend-admin/assets/js/session-edit.js:572-575 | a POST that succeeds with null data alerts "创建成功", then the failure alert, and stays on the page |
| SessionEdit.FailuresLookAlike | frontend-admin/assets/js/session-edit.js:580-582 | as written, the date check and the seat check end in the same alerts although they caught different errors; the intended alert tells them apart |
| EventEdit.FieldsOf | frontend/assets/js/event-edit.js:181-211 | a zero price renders empty; maxPurchase 4 when missing or 0; color #FF5722 by default |
| EventEdit.Render | frontend/assets/js/event-edit.js:163-176 | the k-th loaded tier becomes the block numbered k; the counter is the tier count |
| EventEdit.InitCounter | frontend/assets/js/event-edit.js:62-65 | after loading, the counter is the number of tier inputs, five per block |
| EventEdit.Add | frontend/assets/js/event-edit.js:216-223 | a new block numbered by the counter is appended, and the counter grows by one |
| EventEdit.Remove | frontend/assets/js/event-edit.js:228-233 | the first block with the index is removed, if there is one; the counter is untouched |
| EventEdit.OpenFresh | frontend/assets/js/event-edit.js:62-65 | after opening, no two blocks share an index and the counter is above every index |
| EventEdit.AddKeepsFresh | frontend/assets/js/event-edit.js:216-223 | adding a tier gives it the counter as its index and raises the counter, so the indices stay distinct and below the counter |
| EventEdit.RemoveKeepsFresh | frontend/assets/js/event-edit.js:228-233 | removing the first block with an index keeps the indices distinct and below the counter |
| EventEdit.ReplayKeepsFresh | frontend/assets/js/event-edit.js:216-233 | any sequence of adds and removes keeps the indices distinct and below the counter |
| EventEdit.TierOf | frontend/assets/js/event-edit.js:275-281 | name and description trimmed, maxPurchase 4 when empty, price and color as entered |
| EventEdit.ZeroPriceIncomplete | frontend/assets/js/event-edit.js:191 | a loaded tier priced 0 renders an empty price and so cannot be collected |
| EventEdit.Collect | frontend/assets/js/event-edit.js:265-283 | at most one tier per block (the corrected collection) |
| EventEdit.CollectOne | frontend/assets/js/event-edit.js:266-283 | one block gives its tier exactly when its name and price are filled |
| EventEdit.CollectAppend | frontend/assets/js/event-edit.js:266-283 | the corrected collection keeps document order: blocks split in two give the first part's tiers, then the second's |
| EventEdit.CollectMembers | frontend/assets/js/event-edit.js:274 | a tier is collected exactly when a block with a name and a price builds it |
| EventEdit.CollectAsWritten | frontend/assets/js/event-edit.js:266-274 | the collection as written gives at most one tier per block |
| EventEdit.CollectAsWrittenMembers | frontend/assets/js/event-edit.js:266-274 | as written, a tier is collected exactly when a complete block sits at the position of its own index |
| EventEdit.NewEventAgrees | frontend/assets/js/event-edit.js:216-223 | for a new event whose tiers are only added, the collection as written equals the corrected one |
| EventEdit.AddedTierDropped | frontend/assets/js/event-edit.js:62-65 | an event loaded with one tier, plus one added tier, is saved with one tier as written and with both when corrected |
| EventEdit.RemovedMiddleDropsRest | frontend/assets/js/event-edit.js:228-233 | of three tiers, removing the middle one drops the third as written; corrected, both remaining tiers are kept |
| EventEdit.Payload | frontend/assets/js/event-edit.js:292-314 | fails without name or artist; every key's value: names trimmed, type and city as read, venueId and duration parsed or null when empty, dates null when empty, the optional texts trimmed or '', the tiers as collected as written, the checked tags, status 'draft' by default |
| EventEdit.PayloadBlanks | frontend/assets/js/event-edit.js:298-310 | an optional text is '' exactly when its field is missing or blank, and a date is null exactly when its field is empty |
| EventEdit.PayloadTiers | frontend/assets/js/event-edit.js:266-274 | the payload carries a tier exactly when a complete block sits at its own index's position; for a new event with tiers only added, that is every complete block in order |
| EventEdit.Target | frontend/assets/js/event-edit.js:317-325 | PUT to the event when an id is present, POST otherwise |
| EventEdit.Submit | frontend/assets/js/event-edit.js:249-338 | a request iff a payload was built; a missing field or a failed request is caught and ends with the alert as written on the page; otherwise the one success alert and back to the event list; the button is restored |
| EventEdit.SavedWithoutAddedTier | frontend/assets/js/event-edit.js:266-274 | saving an event loaded with one tier and given a second reports success and goes back while the request carries only the first tier |
| VenueEdit.CountText | frontend-admin/assets/js/venue-edit.js:55 | a zero or missing capacity backfills as ""; any other reads back through parseInt |
| VenueEdit.Backfill | frontend-admin/assets/js/venue-edit.js:51-59 | each text input gets the venue's value or '' |
| VenueEdit.PayloadOf | frontend-admin/assets/js/venue-edit.js:98-126 | name, district and address trimmed; capacity null when empty; images, description and facilities present exactly when they have content |
| VenueEdit.BackfillRoundTrip | frontend-admin/assets/js/venue-edit.js:51-126 | saving an untouched backfilled form gives the venue back: texts trimmed, positive capacity kept, exactly the listed facilities that have a box |
| VenueEdit.Target | frontend-admin/assets/js/venue-edit.js:132-140 | PUT to the venue when an id is present, POST otherwise |
| VenueEdit.Submit | frontend-admin/assets/js/venue-edit.js:86-151 | a request iff a payload was built; a missing field or a failed request is caught and ends with the alert as written on the page; otherwise the one success alert and back to the venue list; the button is restored in every case |
| VenueEdit.FailuresLookAlike | frontend-admin/assets/js/venue-edit.js:144-147 | a form missing its name and a refused request end in the same alert; the intended alert tells them apart unless the refusal carries the same message |

## Left out

- DOM rendering: HTML templates, `innerHTML`, element lookup and show/hide are
  not modelled. A card or a table row is kept as the record it shows.
- Network and async: `fetch` is not modelled. A request becomes a `Call`
  value, and its settlement becomes a parameter (a reply, or a failure).
  Stale-response races between overlapping loads are out of scope.
- Dialogs: the `alert`s a save handler shows become its list of alert
  texts, and `confirm` becomes a boolean parameter. Confirm-message
  wording is not modelled.
- Redirects: `window.location.href` becomes the target page name. The
  console logging is left out.
- Floating point:
  - prices are whole fen (cents), and `parseFloat` of a price input is
    taken as already done;
  - venue latitude and longitude are not modelled;
  - the seat-sales percentage of the session list is not modelled.
- `Date` parsing and time zones: a date argument is falsy, invalid, or
  already split into integer fields. Only the padding and joining are
  modelled.
- `URLSearchParams` percent-encoding: parameters are assumed plain (no
  `&`, `=` or characters needing escapes). `JSON.stringify` and
  `JSON.parse` bodies are records.
- `post`, `put` and `del` of both wrappers become a `Call` with a verb and
  a URL; their JSON bodies are the payload records.
- `client-events.js`, `client-sessions.js` and `client-venues.js` are thin
  wrappers. Only `getEventList`'s default merge is modelled, as
  `Query.Spread` in `ClientIndex.Request`.
- `auth-check.js` is not part of this model: it is login bootstrap and
  cross-tab storage handling, and its logout duplicates `auth.js`.
- Scroll geometry: "near the bottom" is a boolean input.
- The session editor's loading of events, venues and tiers into the form,
  and its read-only mode, are not modelled; only the save is.
- The error texts of the storefront home page's empty state are not
  modelled; a failed load only shows the empty state.
- ClientConstants.FormatSeatCount: `toLocaleString` is taken in a locale that
  groups by three digits with ','; other locales are not modelled.
- SessionList.FormatNumber: the regular expression is modelled on integers
  only; a fractional number's grouping is not modelled.
- Auth.GetUserInfo: `JSON.parse` is not modelled, so the result is the
  stored text rather than the parsed object.
- ListView.ReplayKeepsRange: the page count is fixed over the replayed
  events. A delete or status change on the last page reloads with the
  same page and may shrink the count below it: with 21 records at ten a
  page, deleting the only row of page 3 shows the empty page 3 of 2,
  read "21-20".
- ListView.BadgeOf, ClientIndex.CoverGradient, ClientIndex.CoverFallback,
  ClientConstants.TextOf: a lookup table is a map with its own keys only.
  JavaScript's `table[key]` also finds keys inherited from
  `Object.prototype` ("constructor", "toString", "__proto__" and the
  like). For such a key, the source's `statusMap[status] || …` gives a
  function or object rather than the fallback badge. Likewise the
  source's `gradients[type] || …` gives that object rather than a gradient
  of the table. The model treats these keys as absent. The same holds for
  the badge lemmas SessionList.BadgeFallback and EventList.BadgeFallback.
- SessionEdit.Submit, EventEdit.Submit, VenueEdit.Submit: a failed request
  is its error message only. On a 401 the admin request wrapper has
  already sent the page to the login page before it throws (see
  `Api.Classify`); the handler's own `redirect` does not record that.
- Numbers are unbounded integers: the loss of precision of JavaScript
  numbers above 2^53 is not modelled.

## Findings

| source | as written | input that shows it | evidently intended | confidence | as-written member | corrected member |
|---|---|---|---|---|---|---|
| frontend/assets/js/event-edit.js:62-65, 266-274 | After loading, the tier counter is set to the number of `ticket_tiers[` inputs, five per tier, not the number of tiers. Submit then reads block k's inputs by the name `ticket_tiers[k]`, by position. | Load an event with one tier, add a tier (it gets index 5) and fill it in: the save sends only the first tier. The same happens with three tiers added to a new event after the middle one is removed: the third is dropped. | Every complete block on the page is saved, each read by its own index. | not executed | EventEdit.CollectAsWritten, used by EventEdit.Payload (shown by EventEdit.AddedTierDropped, EventEdit.RemovedMiddleDropsRest and EventEdit.SavedWithoutAddedTier) | EventEdit.Collect (with EventEdit.CollectMembers, EventEdit.CollectAppend and EventEdit.NewEventAgrees) |
| frontend-admin/assets/js/session-edit.js:582 (also frontend/assets/js/event-edit.js:331, frontend-admin/assets/js/venue-edit.js:146) | The alert reads `error.msg`, but every error that reaches the handler is an `Error`, whose text is in `message`. | A session without a start date: the alert reads "保存失败: undefined", and so does one without seats. | The alert shows why the save failed. | not executed | FormData.AlertAsWritten, used by the three Submit members (shown by SessionEdit.AlertLosesMessage, SessionEdit.FailuresLookAlike and VenueEdit.FailuresLookAlike) | FormData.Alert of the caught message each Submit records (with FormData.AlertInjective) |
