# leptos-todo: pagination, client state and server argument handling

A Dafny model of the logic inside a Leptos to-do list application that is
not reactive plumbing or SQL:

- the **pagination controller** of the list (`Pagination`, `PaginationControls`):
  the page count, the sliding window of five page buttons, the ellipses
  around it, the First/Previous/Next/Last and page-button navigation and
  the rules that disable those buttons, all as `u32` arithmetic;
- the **notification slot** `(visible, kind)` that the add, update and
  delete effects write and the one-second dismissal clears, and the banner
  text of each kind;
- the **inline edit draft** `UpdateForm` of one record, its input handlers
  and its save button;
- the **server functions' argument handling**: the due-date parsing shared
  by `add_todo` and `update_todo` (split on `-`, `parse::<i32>` /
  `parse::<u32>` per piece with a fallback to today's component, and
  `NaiveDate::from_ymd_opt` with a fallback to today), `update_todo`'s
  empty-field checks, and the offset, count cast, `total_pages` and row
  mapping of `get_paginated_todos` and `search_todo`.

Modules, one per concern:

| file | module | contents |
|---|---|---|
| wrappers.dfy | Wrappers | `Option`, `Result` |
| machine_int.dfy | MachineInt | `u32`/`i32` ranges, checked and saturating operations, `as u32` |
| types.dfy | Types | `NotificationType`, `UpdateForm`, `Todo`, `PaginatedTodos` |
| paging.dfy | Paging | `PER_PAGE` and the page count both sides compute |
| rust_str.dfy | RustStr | `str::split`, `parse::<u32>`, `parse::<i32>`, zero-padded decimals |
| calendar.dfy | Calendar | proleptic Gregorian dates in chrono's year range |
| server_todo.dfy | ServerTodo | due dates, `add_todo`, `update_todo`, `get_paginated_todos`, row mapping |
| pagination.dfy | Pagination | window, ellipses, navigation, the drawn controls |
| notification.dfy | Notification | the notification slot and its messages |
| edit_draft.dfy | EditDraft | the inline edit draft and save |

Conventions of the model:

- Rust integers are unbounded `int`s restricted to their range. An
  arithmetic overflow the code does not guard against yields `None` (a
  build with overflow checks panics there); an index past the end of the
  split pieces is the error `Panic(IndexOutOfBounds)`.
- The current date (`chrono::Local::now().date_naive()`), the rows a query
  returns and the count it returns are parameters.
- The dismissal timer is the explicit event `Clear`.

What the code does at its edges, which the model follows:

- `(total + PER_PAGE - 1) / PER_PAGE` is evaluated as
  `((total + 10) - 1) / 10`, so it overflows for `total > u32::MAX - 10`
  (4294967285 is the last total that works).
- With no records the controls do not degrade gracefully: the end
  ellipsis computes `0 - 1` in `u32` (see Findings).
- The add form relies on the browser's `required` attributes
  (src/components/todo.rs:357, 365); the server function `add_todo`
  checks nothing, so a direct call with an empty due date panics.
  `update_todo` refuses an empty title or due date on the server. A
  non-empty due date with fewer than two `-` panics in both.
- The edit inputs' `required` attributes (src/components/todo.rs:530, 553)
  sit outside any form and have no effect; the input handlers ignore an
  empty title or due date instead (`EditDraft.ApplyInput`).
- An error notification sets the kind but never the visibility: it is
  seen only while a success banner is still up (`ErrorOnHiddenSlotStaysHidden`).
- Next at the last page and Previous at page 0 leave the page unchanged;
  First, Last and the page buttons assign without checking.

## Model

| member | source | states |
|---|---|---|
| Paging.TotalPages | src/components/todo.rs:283 | defined exactly when `total <= u32::MAX - 10`; then the result is the ceiling of total/10, the least page count holding every record, and 0 exactly when there are no records |
| ServerTodo.GetPaginatedTodos | src/server/todo.rs:60-70 | succeeds exactly when neither the offset nor the page-count sum overflows, otherwise an overflow panic; echoes `page`; items are the mapped rows; `total` is the count's low 32 bits (the count itself below 2^32); `total_pages` is the ceiling of total/10 |
| ServerTodo.RowOffset | src/server/todo.rs:43 | the offset is `page * 10`, and the `u32` product overflows exactly for pages above 429496729 |
| ServerTodo.RowsToTodos | src/server/todo.rs:50-57 | one `Todo` per row, in order, with the row's id, title, description and due date, `completed = false` and no creation time (the same mapping as search at src/server/todo.rs:207-214) |
| ServerTodo.ParseDueDate | src/server/todo.rs:90-99 | fails with an index panic exactly when the text has fewer than two `-`; otherwise the stored date is always a valid calendar date |
| ServerTodo.ParseDueDateFallsBackToToday | src/server/todo.rs:99 | the stored date is the assembled triple when that is a real date and `today` when it is not |
| ServerTodo.ParseDueDateComponentwise | src/server/todo.rs:91-98 | a year, month or day piece that does not parse leaves today's year, month or day in the stored date, each independently |
| ServerTodo.ParseDueDateIgnoresExtraPieces | src/server/todo.rs:92-96 | only the first three pieces are consulted: appending `-` and anything to a text with three pieces changes nothing |
| ServerTodo.ParseDueDateIso | src/server/todo.rs:91-99 | a `YYYY-MM-DD` text naming a real date is stored as exactly that date, whatever `today` is |
| ServerTodo.AddTodo | src/server/todo.rs:74-105 | no field is checked: the insert carries the title and description unchanged and exactly the date `ParseDueDate` computes from the text, and the call panics exactly when the due date has fewer than two `-` (the empty string included) |
| ServerTodo.UpdateTodo | src/server/todo.rs:127-168 | an empty title is refused with "title cannot be empty" whatever the due date; otherwise an empty due date with "due_date cannot be empty"; otherwise it panics exactly when the due date has fewer than two `-`; a success writes the given id, title and description and exactly the date `ParseDueDate` computes from the text |
| ServerTodo.ShortDueDatesPanic | src/server/todo.rs:153-158 | `""` panics in `add_todo` and `"2024"` panics in `update_todo`, which guards only the empty string |
| RustStr.Split | src/server/todo.rs:92 | `split('-')` yields at least one piece and no piece contains the separator |
| RustStr.JoinSplit | src/server/todo.rs:92 | joining the pieces with the separator gives back the original text |
| RustStr.SplitLength | src/server/todo.rs:92 | a text with k separators has k + 1 pieces, so indexing piece 2 needs two `-` |
| RustStr.SplitAtSeparator | src/server/todo.rs:92 | splitting `a - b` splits `a` and `b` independently |
| RustStr.ParseU32 | src/server/todo.rs:95-96 | `parse::<u32>` succeeds exactly when, after an optional `+`, the text is one or more ASCII digits with value at most `u32::MAX`, and then yields that value; in particular no text containing `-` parses |
| RustStr.ParseI32 | src/server/todo.rs:94 | `parse::<i32>` succeeds exactly when the text is `-` then digits with value at most 2^31 (yielding its negation), or an optional `+` then digits with value at most 2^31 - 1 (yielding that value) |
| RustStr.ParseU32RoundTrip | src/server/todo.rs:95-96 | `parse::<u32>` reads back every zero-padded rendering of a `u32`, with or without `+` |
| RustStr.ParseI32RoundTrip | src/server/todo.rs:94 | `parse::<i32>` reads back every zero-padded magnitude up to 2^31 after `-`, and up to 2^31 - 1 bare or after `+` |
| Calendar.DaysInMonth | src/server/todo.rs:99 | months have 28 to 31 days, and February has 29 exactly in Gregorian leap years |
| Calendar.FromYmdOpt | src/server/todo.rs:99 | `from_ymd_opt` yields a date exactly when the triple is a real date in chrono's range, and then the date is that triple |
| Calendar.YearLength | src/server/todo.rs:99 | the month lengths add up to 366 days in a leap year and 365 otherwise |
| Pagination.VisiblePages | src/components/todo.rs:286-299 | fails only when `current + 2` overflows; otherwise an ascending run of exactly `min(5, total_pages)` pages inside `[0, total_pages)` for any `current`, holding `current` whenever it is a page |
| Pagination.WindowIsClampedCentre | src/components/todo.rs:288-296 | the window starts at `current - 2` clamped to `[0, max(0, total_pages - 5)]` |
| Pagination.WindowAtTheEdges | src/components/todo.rs:288-298 | the window starts at 0 for `current <= 2`, ends at `total_pages` for `current + 2 >= total_pages`, and is centred on `current` otherwise |
| Pagination.StartEllipsisMeansHiddenPages | src/components/todo.rs:208-209 | `ShowStartEllipsis`: the start ellipsis shows exactly when the window starts after page 0 |
| Pagination.EndEllipsisUnderflowsWithoutPages | src/components/todo.rs:211-212 | `EndEllipsisAsWritten`: with no pages the window is empty and `total_pages - 1` underflows: a checked build panics and a wrapping build draws an ellipsis |
| Pagination.EndEllipsisMeansHiddenPages | src/components/todo.rs:211-212 | `ShowEndEllipsis`: the corrected end ellipsis shows exactly when the window ends before the last page, and agrees with the original whenever there is at least one page |
| Pagination.NavigationStaysInRange | src/components/todo.rs:186-206 | `Navigate` guarded by `Enabled`: from page 0 or a real page, every enabled button lands on page 0 or a real page again |
| Pagination.NavigationTargets | src/components/todo.rs:186-206 | `Navigate` (the handlers `go_to_first`, `go_to_prev`, `go_to_next`, `go_to_last` and the page buttons): First goes to 0, Last to `total_pages - 1`, a page button to its page; Previous decrements only above 0 and Next increments only below the last page, otherwise both leave the page alone (Next's `current + 1` overflows only at `u32::MAX`) |
| Pagination.DisableRules | src/components/todo.rs:216-244 | `Enabled`, from `BackDisabled` and `ForwardDisabled`: First and Previous are disabled exactly on page 0; Next and Last exactly when `current + 1 >= total_pages`, so an enabled Last never underflows |
| Pagination.RenderControls | src/components/todo.rs:279-305 | the controls exist exactly when neither the page count nor the window overflows; their page count is `TotalPages(total)`, their buttons are the window's pages (`min(5, total_pages)` of them), the start ellipsis shows exactly when the window starts after page 0 and the (corrected) end ellipsis exactly when it ends before the last page; back buttons disabled exactly on page 0, forward buttons exactly without a next page |
| Pagination.EmptyListControls | src/components/todo.rs:283-305 | with no records there are no page buttons and all four navigation buttons are disabled; the corrected controls draw no ellipsis, while the original end ellipsis underflows computing `0 - 1` |
| Pagination.TwentyThreeRecords | src/components/todo.rs:283-305 | 23 records: three pages all shown; on page 0 only Next and Last are enabled; Last goes to page 2, where only First and Previous are enabled |
| Notification.VisibleIffSuccessSinceClear | src/components/todo.rs:55-105 | `Run` of `Step`: from the initial slot the banner is visible exactly when a success settled after the last dismissal |
| Notification.StepEffects | src/components/todo.rs:60-105 | `Step`, read through `Message`: a success shows the banner with its own kind; an error records its text and keeps the visibility; `Clear` resets the slot to hidden and empty |
| Notification.SuccessMessagesIdentifyMutation | src/components/todo.rs:326-332 | `Message`: the three success messages are non-empty and pairwise different |
| Notification.BlankMessageMeansNothingToSay | src/components/todo.rs:326-332 | `Message`: the banner text is empty exactly for an empty slot or an error whose text is empty |
| Notification.LatestEventWins | src/components/todo.rs:60-105 | `Step`: the slot holds one notification: the latest event decides the kind |
| Notification.ErrorOnHiddenSlotStaysHidden | src/components/todo.rs:74-77 | an error settling while no banner is up is recorded but stays hidden |
| EditDraft.OpenRow | src/components/todo.rs:505-509 | the editor starts hidden with the draft a copy of the record's title, description and due date |
| EditDraft.Reveal | src/components/todo.rs:459-461 | a click on the record shows the editor and keeps the draft |
| EditDraft.InputsKeepRequiredFields | src/components/todo.rs:533-562 | `ApplyInputs`: a draft with a title and a due date keeps both non-empty under any sequence of inputs |
| EditDraft.InputEffects | src/components/todo.rs:533-562 | `ApplyInput`: an empty title or due-date input leaves the draft unchanged; the description takes any value; no input touches another field |
| EditDraft.TitleComesFromInputs | src/components/todo.rs:533-539 | `ApplyInputs`: the draft's title is the record's own or one of the non-empty titles typed |
| EditDraft.Save | src/components/todo.rs:516-524 | save dispatches exactly the draft's fields for the record's id and hides the editor |
| EditDraft.SavedEditPassesEmptyChecks | src/components/todo.rs:516-524 | saving an edit of a record with a title and a due date never trips `update_todo`'s empty-field checks |

## Findings

| source | as written | input that shows it | evidently intended | confidence | as-written member | corrected member |
|---|---|---|---|---|---|---|
| src/components/todo.rs:211-212 | the end ellipsis compares the last page with `total_pages - 1` in `u32` | no records: `total = 0`, so `total_pages = 0`, the window is empty and `0 - 1` underflows (panic with overflow checks, an ellipsis next to no buttons without them) | no end ellipsis when there is no page after the window | high, not executed | Pagination.EndEllipsisUnderflowsWithoutPages | Pagination.EndEllipsisMeansHiddenPages |

`Pagination.RenderControls` uses the corrected `ShowEndEllipsis`; the
as-written `EndEllipsisAsWritten` is kept beside it.

## Left out

- Reactivity: resources keyed on the action versions and the current
  page, effects, `Transition`/`Suspense`, contexts. These are framework
  behaviour; the model has no version counters and no refetching.
- Timing: the one-second dismissal is the `Clear` event, so the overlap of
  two pending dismissals (the first hiding the second banner early) is not
  expressed; the 500 ms search debounce is not modelled.
- SQL and the database connection: ordering, `LIMIT`/`OFFSET`,
  `plainto_tsquery` matching, updates and deletes that touch no row, and
  connection or query errors. `complete_todo`, `delete_todo` and the
  query of `search_todo` are single SQL statements and are not modelled
  beyond the shared row mapping.
- The text of `ServerFnError::to_string()` is external; an error
  notification carries it as an opaque string.
- The browser-side `required` validation of the add form
  (src/components/todo.rs:357, 365), which keeps an empty title or due date
  from being submitted: the model treats `add_todo` as called with any
  text, as a direct call of the server function can be.
- Resetting the add form on success and disabling its submit button while
  pending act on DOM nodes and the framework, and are not modelled.
- View markup, styles, the sidebar, routing and the wasm entry point,
  including the page buttons' labels and highlight, the list's empty and
  error texts, and the controls' loading and error fallbacks.
- The complete and delete buttons of a row only dispatch the row's id to
  their server function; there is no logic to model.
- Overflow is modelled as failure; a build without overflow checks wraps,
  and the model follows wrapped values only for the end ellipsis.
- ServerTodo.ParseDueDateIso: stated only for years 0 to 9999, the years
  the four-digit `YYYY` layout can write.
- Calendar.FromYmdOpt: chrono's year range is taken as -262143 to 262142,
  `(i32::MIN >> 13) + 1` to `(i32::MAX >> 13) - 1`, the bounds of
  `NaiveDate` in recent chrono 0.4 releases (older releases allow one more
  year at each end); the crate version is not part of this model.
- ServerTodo.GetPaginatedTodos: requires the count to be a non-negative
  `i64`, as Postgres's `count(1)` always is.
