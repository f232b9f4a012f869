# Church membership: form validation and the member list

A Dafny model of two parts of a church-membership web application.

- **Records and form validation** (`src/lib/types.ts`). The members, ministry areas,
  integration groups (GDIs), meeting series, meetings and attendance records are modelled as
  datatypes. The form schemas become functions from form values to the list of issues the
  schema reports.
  - Each issue is a field path and a message.
  - Field checks run first, in the order the schema declares its fields.
  - For the meeting-series form, the cross-field refinement runs next and appends its own
    issues, even when field checks have already failed.
  - The HH:MM time pattern is proved to accept exactly the clock times 00:00–23:59.
  - The weekday and week-ordinal option tables are proved complete and free of duplicates.
- **The member list screen** (`src/components/members/members-list-view.tsx`). It has these
  parts:
  - the guide column, which does two first-match lookups;
  - the Spanish status label;
  - the sortable table, sorted stably on a copy of the member list;
  - replacing an edited member by id;
  - the URL query updates for search, page links and page size;
  - when the previous and next buttons are enabled.

  The screen's state (members, search box, sort column and order, URL query) is the class
  `MembersListView.MembersList`. Its methods change those fields.

Files:
- `util.dfy`: `Option` and first-match search.
- `js_string.dfy`: the JavaScript `trim` and integer-to-string behaviour the screen relies on.
- `types.dfy`: records and validators.
- `stable_sort.dfy`: a generic stable sort. It is specified as insertion sort and also
  implemented in place on an array. It is proved to be a permutation, sorted and stable, and
  to be the only stable sort of its input.
- `members_list_view.dfy`: the screen.

Some inputs are parameters of the model:
- The locale's string collation `a.localeCompare(b) <= 0` is a parameter `le`. Sortedness and
  stability are proved whenever `le` is a total preorder.
- Whether a member save is in progress (`isProcessingMember`) is a parameter.
- The current page and the total page count are parameters.

The model follows the code on the day of month. The series schema bounds-checks
`monthlyDayOfMonth` with `min(1).max(31)` at field level, whatever the frequency. So a
leftover out-of-range day is reported on a OneTime or Weekly series
(`Types.LeftoverDayOfMonthIsReported`), although the refinement itself ignores fields of
other frequencies. A Monthly/DayOfMonth series with an out-of-range day gets two issues at
that field (`Types.OutOfRangeDayReportedTwice`).

## Model

| member | source | states |
|---|---|---|
| Util.FindIndex | src/components/members/members-list-view.tsx:86 | `find`: the index found is the first element satisfying the predicate; `None` exactly when no element does |
| JsString.Trim | src/components/members/members-list-view.tsx:99-100 | the result is the infix left after dropping white space at both ends; it is empty iff the input is all white space |
| JsString.TrimIdempotent | src/components/members/members-list-view.tsx:99-100 | trimming a trimmed string changes nothing |
| JsString.DecimalRoundTrip | src/components/members/members-list-view.tsx:201 | the decimal numeral of a natural number reads back as that number |
| JsString.IntToString | src/components/members/members-list-view.tsx:201 | `n.toString()` in plain decimal: digits only for `n` ≥ 0, a minus sign then digits for `n` < 0, never a leading zero except in "0" |
| JsString.IntToStringRoundTrip | src/components/members/members-list-view.tsx:201 | the numeral written for a page number parses back to that number, negative ones included (page numbers as unbounded integers; see Left out) |
| Types.AddIssueIf | src/lib/types.ts:179-183 | a failing check appends exactly one issue at its path; a passing one appends nothing |
| Types.IsValidTime | src/lib/types.ts:165 | an accepted time is five characters, two digits, a colon and two digits, with hour below 24 and minute below 60 |
| Types.TimePatternIsClockTime | src/lib/types.ts:165 | `^([01]\d\|2[0-3]):([0-5]\d)$` accepts a string iff it is `HH:MM` with hour 00–23 and minute 00–59 |
| Types.MemberFormIssues | src/lib/types.ts:128-143 | no issue iff first and last name have ≥ 2 characters and phone ≥ 7; an issue at each field iff its minimum fails; no other paths |
| Types.MinistryAreaFormIssues | src/lib/types.ts:147-152 | no issue iff name ≥ 3, description ≥ 10 and leader chosen; per-field iff |
| Types.GdiFormIssues | src/lib/types.ts:155-158 | no issue iff name ≥ 3 and guide chosen; per-field iff |
| Types.MeetingInstanceFormIssues | src/lib/types.ts:214-221 | no issue iff name ≥ 3, a date, a valid HH:MM time and location ≥ 3; per-field iff |
| Types.SeriesTextIssues | src/lib/types.ts:163-168 | name ≥ 3, valid time, location ≥ 3, at least one target group: one issue per failed check, none otherwise |
| Types.DayOfMonthBoundIssues | src/lib/types.ts:173 | a present day outside 1..31 gets exactly one issue at monthlyDayOfMonth; an absent or in-range day none |
| Types.SeriesFieldIssues | src/lib/types.ts:162-175 | the series field checks report nothing iff every field minimum, the time pattern and the day bound hold; per-field iff; one day-bound issue at most |
| Types.OneTimeIssues | src/lib/types.ts:177-185 | OneTime without a date gives the one date issue; otherwise nothing |
| Types.WeeklyIssues | src/lib/types.ts:186-194 | Weekly with no days (absent or empty) gives one weeklyDays issue; otherwise nothing |
| Types.MonthlyIssues | src/lib/types.ts:195-210 | only Monthly reports; at most two issues, all at monthly fields |
| Types.RefineIssues | src/lib/types.ts:176-211 | the refinement reports at most two issues, all at fields governed by the chosen frequency |
| Types.ValidateSeriesForm | src/lib/types.ts:162-211 | issue counts per path are the field counts plus the refinement counts |
| Types.OneFrequencyBlockReports | src/lib/types.ts:177-210 | at most one frequency block reports |
| Types.RefineAcceptsCompleteSchedules | src/lib/types.ts:176-211 | the refinement reports nothing iff the fields the frequency needs are present and in range |
| Types.ValidateSeriesFormAcceptsValid | src/lib/types.ts:162-211 | the whole schema accepts a form iff every field check holds and the schedule is complete |
| Types.OneTimeRule | src/lib/types.ts:177-185 | OneTime: exactly one date issue iff the date is absent |
| Types.WeeklyRule | src/lib/types.ts:186-194 | Weekly: an issue at weeklyDays iff the list is absent or empty, and no other issue |
| Types.MonthlyWithoutRuleType | src/lib/types.ts:196-197 | Monthly without a rule type: exactly the rule-type issue |
| Types.DayOfMonthRule | src/lib/types.ts:198-201 | Monthly/DayOfMonth: an issue iff the day is missing or outside 1..31, and no other |
| Types.DayOfWeekOfMonthRule | src/lib/types.ts:202-208 | Monthly/DayOfWeekOfMonth: ordinal and weekday checked independently; the count is the number missing |
| Types.RefineIgnoresOtherFrequencies | src/lib/types.ts:176-211 | forms that agree on the fields of their frequency get the same refinement issues |
| Types.LeftoverDayOfMonthIsReported | src/lib/types.ts:173 | non-Monthly with an out-of-range day: no refinement issue, yet one issue at monthlyDayOfMonth overall |
| Types.OutOfRangeDayReportedTwice | src/lib/types.ts:173-201 | Monthly/DayOfMonth with an out-of-range day: two issues at monthlyDayOfMonth |
| Types.DaysOfWeekTableIsComplete | src/lib/types.ts:225-233 | seven entries, Sunday first, every weekday once, labels distinct |
| Types.WeekOrdinalsTableIsComplete | src/lib/types.ts:235-241 | five entries, every ordinal once, labels distinct |
| StableSort.InsertionSort | src/components/members/members-list-view.tsx:119 | the engine's sort, specified as insertion sort: the result has the input's length; permutation, order and stability are the three lemmas below |
| StableSort.InsertionSortPermutes | src/components/members/members-list-view.tsx:117-119 | the sorted sequence is a permutation of the input |
| StableSort.InsertionSortSorted | src/components/members/members-list-view.tsx:119-144 | under a total preorder every earlier element may precede every later one |
| StableSort.InsertionSortStable | src/components/members/members-list-view.tsx:119-144 | elements tied with one another keep their input order |
| StableSort.StableSortIsUnique | src/components/members/members-list-view.tsx:119 | two sorted sequences with the same order inside every rank are equal |
| StableSort.StableSortsAgree | src/components/members/members-list-view.tsx:119 | any sorted sequence that keeps every rank's input order equals the modelled sort |
| StableSort.InsertAt | src/components/members/members-list-view.tsx:119 | shifting in place inserts the element into the sorted prefix and leaves the suffix |
| StableSort.SortInPlace | src/components/members/members-list-view.tsx:119 | the in-place array sort leaves the array holding the stable sort of its old contents |
| MembersListView.LookupGuide | src/components/members/members-list-view.tsx:84-89 | not assigned iff the GDI id is absent, null or empty; GDI missing iff no GDI has the id; otherwise the first GDI with the id and the first roster member with its guide id, or none |
| MembersListView.GuideName | src/components/members/members-list-view.tsx:84-90 | "No asignado" when unassigned, "GDI no encontrado" when no GDI matches, "Guía no encontrado" when the guide is missing, otherwise first name, a space and last name of the guide `LookupGuide` finds |
| MembersListView.GuideNameIdentifiesCase | src/components/members/members-list-view.tsx:84-89 | when no roster name equals a label: "No asignado" iff unassigned, "GDI no encontrado" iff no GDI matches, "Guía no encontrado" iff the guide is missing, a name iff found |
| MembersListView.EmptyGdiIdIsNotAssigned | src/components/members/members-list-view.tsx:85 | an empty GDI id shows "No asignado" |
| MembersListView.GuideLabelCollision | src/components/members/members-list-view.tsx:87-89 | a found guide named "GDI" "no encontrado" shows the missing-GDI label |
| MembersListView.GuideLabelsDistinct | src/components/members/members-list-view.tsx:85-89 | the three labels differ |
| MembersListView.DisplayStatus | src/components/members/members-list-view.tsx:190-197 | Active is labelled Activo, Inactive Inactivo, New Nuevo |
| MembersListView.DisplayStatusInjective | src/components/members/members-list-view.tsx:190-197 | two statuses share a label iff they are the same status |
| MembersListView.ClickHeader | src/components/members/members-list-view.tsx:107-114 | the clicked column becomes the sorted one; same column flips the order; another column starts ascending |
| MembersListView.ClickSortedHeaderTwice | src/components/members/members-list-view.tsx:107-114 | two clicks on the sorted column restore the sort |
| MembersListView.ClickOtherHeaderTwice | src/components/members/members-list-view.tsx:107-114 | two clicks on another column sort it descending |
| MembersListView.SortValue | src/components/members/members-list-view.tsx:121-130 | the full-name column compares first name, a space and last name; a missing date compares as "", a present one as its text; the status column holds one of the three status strings |
| MembersListView.Comparator | src/components/members/members-list-view.tsx:132-134 | ascending: `a` may precede `b` iff `a`'s value collates no later than `b`'s; descending is ascending with the arguments swapped |
| MembersListView.ComparatorIsTotalPreorder | src/components/members/members-list-view.tsx:119-133 | a total-preorder collation gives a total-preorder comparator, ascending or descending |
| MembersListView.SortedMembers | src/components/members/members-list-view.tsx:116-146 | the rows are as many as the members and each row is a listed member |
| MembersListView.SortedMembersPermutes | src/components/members/members-list-view.tsx:117-119 | the rows are the members, with multiplicity |
| MembersListView.SortedMembersOrdered | src/components/members/members-list-view.tsx:121-133 | ascending: values non-decreasing by collation (full name = first + " " + last, missing = ""); descending: non-increasing |
| MembersListView.SortedMembersStable | src/components/members/members-list-view.tsx:119-143 | members with the same value in the sorted column keep their input order |
| MembersListView.ReplaceById | src/components/members/members-list-view.tsx:179-181 | same length; every element with the updated id becomes the update, every other stays |
| MembersListView.ReplaceByIdKeepsIds | src/components/members/members-list-view.tsx:180 | the ids, in order, are unchanged |
| MembersListView.ReplaceByIdIdempotent | src/components/members/members-list-view.tsx:180 | applying an update twice equals applying it once |
| MembersListView.ReplaceByIdAbsent | src/components/members/members-list-view.tsx:180 | an update for an unlisted id changes nothing |
| MembersListView.SubmitSearch | src/components/members/members-list-view.tsx:96-105 | page becomes "1"; search becomes the trimmed input, or is deleted when that is empty; every other parameter kept |
| MembersListView.SubmitSearchIdempotent | src/components/members/members-list-view.tsx:97-103 | the stored term has no white space at either end, and resubmitting changes nothing |
| MembersListView.PageLink | src/components/members/members-list-view.tsx:199-203 | page becomes `IntToString` of the page number (plain decimal, no leading zero), which parses back to it; every other parameter kept |
| MembersListView.ChangePageSize | src/components/members/members-list-view.tsx:205-210 | pageSize becomes the chosen size and page "1"; every other parameter kept |
| MembersListView.ChangePageSizeIsFirstPage | src/components/members/members-list-view.tsx:205-210 | changing the size equals following the page-1 link with the new size |
| MembersListView.PrevDisabled | src/components/members/members-list-view.tsx:347 | "previous" enabled iff nothing is being saved and the page before exists (page − 1 ≥ 1) |
| MembersListView.NextDisabled | src/components/members/members-list-view.tsx:356 | "next" enabled iff nothing is being saved and page + 1 ≤ totalPages |
| MembersListView.NavigationStaysInRange | src/components/members/members-list-view.tsx:346-356 | from an existing page an enabled button leads to an existing page; with one page both are disabled |
| MembersListView.MembersList.constructor | src/components/members/members-list-view.tsx:61-64 | initial state: the given members and search term, sorted by full name ascending |
| MembersListView.MembersList.ResetMembers | src/components/members/members-list-view.tsx:75-77 | new members passed in replace the list |
| MembersListView.MembersList.SetSearchInput | src/components/members/members-list-view.tsx:92-94 | the search box holds the typed value |
| MembersListView.MembersList.HandleSort | src/components/members/members-list-view.tsx:107-114 | the sort state becomes `ClickHeader` of the old one; nothing else changes |
| MembersListView.MembersList.ProcessedMembers | src/components/members/members-list-view.tsx:116-146 | the rows are the stable sort of `members` by the current column and order, a permutation of it; `members` is not modified |
| MembersListView.MembersList.HandleMemberUpdated | src/components/members/members-list-view.tsx:178-183 | the list becomes `ReplaceById` of the old list; nothing else changes |
| MembersListView.MembersList.HandleSearchSubmit | src/components/members/members-list-view.tsx:96-105 | the query becomes `SubmitSearch` of the old query and the search box |
| MembersListView.MembersList.HandlePageSizeChange | src/components/members/members-list-view.tsx:205-210 | the query becomes `ChangePageSize` of the old query |

## Left out

- `src/components/layout/footer.tsx`: presentational markup and the current year from the clock.
- Rendering: the JSX, dialogs, badges, avatars, toasts, the sort icon, role labels, the
  empty-list messages, and hiding the pagination bar when there are no pages
  (members-list-view.tsx:185-188, 213-403).
- The "X–Y of Z total" label arithmetic (members-list-view.tsx:321). Its own comment says its
  intent is unclear, so there is nothing to state about it.
- Server actions and navigation:
  - Adding a member (`handleAddSingleMemberSubmit`, :158-176) is left out: it is an async
    server call, and it formats dates with `toISOString`.
  - `updateMemberAction` is not modelled.
  - `useTransition` is not modelled: the saving flag is a parameter.
  - `router.push` is not modelled: the new query is stored in the `params` field.
  - `router.refresh` is not modelled.
  - `useMemo` caching is not modelled.
- The query string is a map from name to value. Parameter order, repeated names and URL
  encoding (`URLSearchParams.toString`) are not modelled.
- The comparator's numeric and date branches (members-list-view.tsx:135-142). Every sortable
  column holds a string or nothing, so they never run. `Date` parsing is not modelled.
- Locale collation: `localeCompare` is the parameter `le`. Results about order assume only
  that it is a total preorder.
- Zod's `email()` and `url()` checks are not modelled. Dates are opaque `Instant`s: the forms
  only test whether one is there.
- `z.coerce.number()` on the day of month is not modelled. The day is an integer, so
  non-numeric, NaN and fractional input is not modelled.
- `min(n)` on a string counts UTF-16 code units; the model counts characters. They differ
  only outside the Basic Multilingual Plane.
- Type-level aliases (`MemberWriteData` and the other `Omit`/`Partial` types) are not
  modelled. The recurrence expansion of a series into meetings and the group/area roster
  consistency are not part of this model.
- JsString.IntToString: page numbers are unbounded integers. A JavaScript number is a double,
  so integers beyond 2^53 are not exact and from 10^21 on `toString` writes exponent form
  ("1e+21"); the model writes plain decimal for every integer.
- `MinistryArea`, `Meeting`, `AttendanceRecord`, `Resource` and the "__NONE__" GDI picker
  value are record shapes only: no operation of the core reads them.
- MembersListView.GuideNameIdentifiesCase: the labels are identified only when no roster
  member's full name equals a label. The labels share the column with names, and
  `MembersListView.GuideLabelCollision` shows a guide called "GDI" "no encontrado" whose
  name reads as the missing-GDI label. The exact case analysis is stated on
  `MembersListView.LookupGuide`.
- MembersListView.DisplayStatus: the `default` branch (members-list-view.tsx:195) returns the
  raw status. It cannot be reached with the three statuses of the datatype.
