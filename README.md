# Hospital admin dashboard: the page logic, in Dafny

A model of the logic inside the five main pages of a React hospital-admin
dashboard:

- **Patients.** A patient matches a search when the lower-cased name or id
  contains the lower-cased term, or when the phone contains the term as typed.
  The matches are shown in pages of 7 rows. The page summary reads "Showing
  a-b of n". There is a window of at most three page-number buttons, and
  Prev/Next buttons that move `currentPage`.
- **Appointments.** The list is first restricted to the day picked on the
  calendar. It is then folded by a `reduce` into a dictionary whose keys are
  the text of `time` before the first space. Each status gets a badge label
  and a colour.
- **Doctors.** The search text (name or specialization, ignoring case) is
  combined by AND with an optional department tab. The tabs are the distinct
  departments, in order of first appearance. Each card's badge label is the
  hyphenated status written as capitalised words.
- **Dashboard.** There are four animated counters. On every timer tick each
  counter becomes `prev < cap ? prev + step : cap`.
- **Settings.** There are eight notification switches, each flipped by
  `handleToggle(key)`. The general-settings form schema sets minimum lengths
  and has one message per failing field.

Strings are `seq<char>`, and case conversion is ASCII. The modules are:

- `Text`: `toLowerCase`, `includes`, `split`, `join` and capitalisation.
- `Seqs`: `filter`, `map`, and `Array.from(new Set(..))` as `Distinct`.
- One module per page.

The page state that handlers change step by step is a `class`:

- `Patients.PatientsPage` holds `currentPage` and the search term.
- `Dashboard.StatsTicker` holds `stats`.
- `Settings.NotificationSettings` holds `notifications`.

The appointments `reduce` is a method whose loop builds the key order and the
dictionary. Each of these methods is proved against a specification function,
and the properties of that function are proved as lemmas.

Some behaviours of the code as written are stated as lemmas:

- **Two pages, on page 2.** The page-number formula computes 0 and 1. Only
  button "1" is drawn, and the current page has no button
  (`Patients.SecondOfTwoPagesHasNoButton`).
- **No matches.** `totalPages` is 0. Next stays enabled on page 1 and moves
  the page out of range (`Patients.NextEscapesWhenNoPages`).
- **Page left out of range after a search.** Typing in the search box does not
  reset the page. A page left beyond the last one shows at most one button
  (`Patients.PageButtonsBeyondEnd`).
- **Morning and evening share a slot.** The slot key drops the AM/PM
  suffix, so "9:00 AM" and "9:00 PM" fall in the same slot
  (`Appointments.SlotKeyDropsMeridiem`).
- **Counters pass their targets.** The patients, appointments and occupancy
  counters show a value above the target for one tick before they settle
  (`Dashboard.OvershootThenSettle`).
- **An empty department counts as none.** JavaScript's `!selectedDepartment`
  is true for `""` as well as for `null`. The model keeps that: an empty
  department selection does not filter (`Doctors.DeptMatches`).

## Model

| member | source | states |
|---|---|---|
| Text.ContainsMeaning | src/pages/Patients.tsx:45-47 | `includes`: the term occurs at some position of the text (the empty term everywhere) |
| Text.Split | src/pages/Doctors.tsx:167 | `split('-')` gives at least one piece, no piece holds the separator, and joining the pieces with it gives back the text |
| Text.LetterRulesOut | src/pages/Doctors.tsx:37-38 | a lower-case letter of the term absent from the text in both cases rules out a case-insensitive match |
| Seqs.FilterMembers | src/pages/Patients.tsx:43-48 | `filter` keeps exactly the elements satisfying the predicate |
| Seqs.FilterEmbeds | src/pages/Patients.tsx:43-48 | `filter` keeps the kept elements in input order, at exactly the positions satisfying the predicate |
| Seqs.FilterByPositions | src/pages/Patients.tsx:43-48 | knowing which positions satisfy the predicate determines the filtered list |
| Seqs.Distinct | src/pages/Doctors.tsx:43-45 | `Array.from(new Set(xs))` has no duplicates and holds exactly the values of xs |
| Seqs.DistinctFirstSeenOrder | src/pages/Doctors.tsx:43-45 | the distinct values come in the order of their first occurrence in xs |
| Patients.FilterPatients | src/pages/Patients.tsx:43-48 | a patient is listed iff `Matches` holds: name or id contains the term ignoring case, or the phone contains it as typed; an empty search keeps every patient |
| Patients.FilterPatientsKeepsOrder | src/pages/Patients.tsx:43-48 | the filtered list is the subsequence of the input at exactly the positions where `Matches` holds |
| Patients.JsSlice | src/pages/Patients.tsx:53 | `slice` of an in-range window is that window; a start at or past the end gives nothing; the end is clamped to the length |
| Patients.PageSliceContents | src/pages/Patients.tsx:51-53 | `PageSlice` (the `slice` of page p) holds at most 7 rows: rows (p-1)*7 to min(p*7, n), and none once (p-1)*7 reaches n |
| Patients.PatientsPage.CurrentPatients | src/pages/Patients.tsx:51-53 | the rows on screen are rows (p-1)*7 up to min(p*7, n) of the filtered list for the current page p, so at most 7, each a loaded patient matching the search, and none when the page starts past the end |
| Patients.TotalPages | src/pages/Patients.tsx:54 | `Math.ceil(n / 7)`: enough pages for n rows and not one more; 0 exactly when n is 0 |
| Patients.PagesUpToPrefix | src/pages/Patients.tsx:51-54 | pages 1..k laid end to end are the first min(7k, n) rows |
| Patients.PagesCoverAll | src/pages/Patients.tsx:51-54 | reading pages 1..totalPages in turn shows every filtered row exactly once, in order |
| Patients.ShowingRangeMatchesPage | src/pages/Patients.tsx:143 | on a page that has rows, the numbers `ShowingRange` prints as "Showing first-last" name exactly the rows of `PageSlice` |
| Patients.PageButtons | src/pages/Patients.tsx:154-161 | at most min(3, totalPages) buttons, each numbered within [1, totalPages] |
| Patients.PageButtonsOnFirstPage | src/pages/Patients.tsx:154-156 | on page 1 the buttons are 1..min(3, totalPages) |
| Patients.PageButtonsOnLastPage | src/pages/Patients.tsx:157-158 | on the last of three or more pages the buttons are total-2, total-1, total |
| Patients.PageButtonsInMiddle | src/pages/Patients.tsx:159 | strictly between first and last page the buttons are p-1, p, p+1 |
| Patients.SecondOfTwoPagesHasNoButton | src/pages/Patients.tsx:154-161 | with two pages, page 2 renders only button "1" |
| Patients.PageButtonsBeyondEnd | src/pages/Patients.tsx:154-161 | a page one past the end shows only the last page's button, further out none |
| Patients.AfterPrev | src/pages/Patients.tsx:149-150 | Prev is disabled on page 1, otherwise goes back one page, never below 1 |
| Patients.AfterNext | src/pages/Patients.tsx:178-179 | Next is disabled on the last page, otherwise goes on one page; within [1, total] it stays there |
| Patients.NextEscapesWhenNoPages | src/pages/Patients.tsx:178-179 | with no matches there are 0 pages, Next stays enabled on page 1 and moves to page 2 |
| Patients.PageButtonStaysInRange | src/pages/Patients.tsx:161-167 | a click on a rendered page button selects a page within [1, totalPages] |
| Patients.PatientsPage.constructor | src/pages/Patients.tsx:31-33 | the page starts with no patients, an empty search and page 1 |
| Patients.PatientsPage.LoadPatients | src/pages/Patients.tsx:36-40 | loading the list changes neither the search nor the page |
| Patients.PatientsPage.SetSearchTerm | src/pages/Patients.tsx:66 | typing replaces the search term and does not reset the page |
| Patients.PatientsPage.ClickPrev | src/pages/Patients.tsx:149-150 | the page becomes AfterPrev of the old page; the page stays at least 1 |
| Patients.PatientsPage.ClickNext | src/pages/Patients.tsx:178-179 | the page becomes AfterNext of the old page and page count |
| Patients.PatientsPage.ClickPageButton | src/pages/Patients.tsx:167 | the page becomes the clicked number, which lies within [1, totalPages] |
| Patients.SampleThirdPage | src/pages/Patients.tsx:201-217 | the 15 sample patients make 3 pages and page 3 holds only the fifteenth |
| Patients.SamplePhonePositions | src/pages/Patients.tsx:201-217 | of the sample patients exactly the first and the eleventh match "555-123" |
| Patients.SamplePhoneSearch | src/pages/Patients.tsx:201-217 | searching the sample for "555-123" lists John Smith and James Harris, in that order |
| Appointments.StatusLabel | src/pages/Appointments.tsx:190 | the badge text has the status's length, its first character is the upper-cased first character of the status, and the rest are the status's other characters |
| Appointments.StatusLabels | src/pages/Appointments.tsx:190 | the four labels are "Scheduled", "In-progress", "Completed" and "Cancelled" |
| Appointments.StatusColorsDistinct | src/pages/Appointments.tsx:169-180 | `StatusColor` gives two statuses the same colour classes iff they are the same status |
| Appointments.FilterByDate | src/pages/Appointments.tsx:29-33 | without a selected day nothing is listed; with one, exactly the appointments on that day |
| Appointments.FilterByDateKeepsOrder | src/pages/Appointments.tsx:29-33 | `FilterByDate` is the subsequence of the input at exactly the positions whose date falls on the selected day, in input order; with no day selected it keeps no position |
| Appointments.NoDayNoSlots | src/pages/Appointments.tsx:29-43 | without a selected day there are no time slots |
| Appointments.SlotKey | src/pages/Appointments.tsx:37 | the slot key has no space; it is the whole time when there is no space, otherwise the text before the first space |
| Appointments.SlotKeyIsSplitHead | src/pages/Appointments.tsx:37 | `SlotKey` (the text before the first space) equals `time.split(' ')[0]`, the first piece of `Split` |
| Appointments.SlotKeyBeforeSpace | src/pages/Appointments.tsx:37 | the key of a time whose first space is at i is the first i characters |
| Appointments.SlotKeyDropsMeridiem | src/pages/Appointments.tsx:37 | "9:00 AM" and "9:00 PM" both have the key "9:00" |
| Appointments.GroupByTimeSlot | src/pages/Appointments.tsx:35-43 | the reduce's keys are the distinct slots in order of first appearance, and each key's array is that slot's appointments in input order |
| Appointments.PushStep | src/pages/Appointments.tsx:36-42 | one call of the reducer, an array created for a new slot and the appointment pushed onto its slot's array, turns the dictionary of a prefix into the dictionary of the prefix one appointment longer |
| Appointments.PushKeys | src/pages/Appointments.tsx:38-40 | a slot not yet in the dictionary becomes its last key, and an existing slot leaves the keys as they are; either way the keys are `SlotOrder` of the longer prefix |
| Appointments.PushGroups | src/pages/Appointments.tsx:38-41 | pushing onto the slot's array, or onto a new empty one, gives every key the array `SlotGroup` of the longer prefix |
| Appointments.SlotGroupSnoc | src/pages/Appointments.tsx:38-41 | one more appointment is appended to its own slot's array and to no other |
| Appointments.SlotGroupsNonEmpty | src/pages/Appointments.tsx:38-41 | a slot is a key iff its array is non-empty, and an array holds exactly the appointments of its slot |
| Appointments.SlotOrderFirstSeen | src/pages/Appointments.tsx:107 | the keys as `Object.entries` lists them are pairwise distinct, in order of their first appointment |
| Appointments.NoSlotsIffNoAppointments | src/pages/Appointments.tsx:105 | the timeline's empty state (no keys) shows iff the list view's does (no appointments) |
| Appointments.ConcatCounts | src/pages/Appointments.tsx:35-43 | the arrays of distinct slots hold each appointment of those slots as often as the input does |
| Appointments.GroupingIsPermutation | src/pages/Appointments.tsx:35-43 | the arrays of all slots together are a permutation of the input |
| Appointments.ConcatSlotGroup | src/pages/Appointments.tsx:35-43 | in the arrays of distinct slots laid end to end, the appointments of slot k are exactly k's array when k is among the slots, and none otherwise |
| Appointments.ConcatSlotOrder | src/pages/Appointments.tsx:35-43 | the arrays of distinct slots that occur in the input, laid end to end, list those slots again as their keys, in the same order |
| Appointments.RegroupingIsStable | src/pages/Appointments.tsx:35-43 | grouping the flattened result of the reduce again gives the same keys in the same order and the same array under every key |
| Doctors.StatusColorsDistinct | src/pages/Doctors.tsx:142-151 | `StatusColor` gives two statuses the same badge colour iff they are the same status |
| Doctors.FilterDoctors | src/pages/Doctors.tsx:35-40 | a doctor is listed iff name or specialization contains the term ignoring case and `DeptMatches` holds: no department (or "") is selected, or the doctor's department is the selected one |
| Doctors.FilterDoctorsKeepsOrder | src/pages/Doctors.tsx:35-40 | the filter keeps doctors in input order |
| Doctors.EmptySearchKeepsAll | src/pages/Doctors.tsx:35-40 | with no search and no department every doctor is listed |
| Doctors.DepartmentNarrows | src/pages/Doctors.tsx:35-40 | selecting a department filters the unselected result again, so it only removes doctors |
| Doctors.DepartmentsSpec | src/pages/Doctors.tsx:43-45 | `Departments` (the `Set` of the doctors' departments) holds each doctor's department once and nothing else, in order of first appearance |
| Doctors.TabSelection | src/pages/Doctors.tsx:66-80 | through `SelectTab`, "All Doctors" filters by text alone; a department tab lists exactly the text matches in that department; with no search a department's tab is never empty |
| Doctors.AllTabIgnoresDepartment | src/pages/Doctors.tsx:69 | the "All Doctors" tab's result is the text filter alone |
| Doctors.DepartmentTabNonEmpty | src/pages/Doctors.tsx:72-78 | with an empty search the tab of a listed department shows at least one doctor |
| Doctors.BadgeLabelChars | src/pages/Doctors.tsx:167-169 | `BadgeLabel` (split on '-', capitalise each piece, join with ' ') equals `LabelChars`, which turns each hyphen into a space and upper-cases the first letter of each word and changes nothing else |
| Doctors.LabelIs | src/pages/Doctors.tsx:167-169 | a label can be read off character by character |
| Doctors.BadgeLabelAvailable | src/pages/Doctors.tsx:167-169 | "available" is shown as "Available" |
| Doctors.BadgeLabelInClinic | src/pages/Doctors.tsx:167-169 | "in-clinic" is shown as "In Clinic" |
| Doctors.BadgeLabelOnLeave | src/pages/Doctors.tsx:167-169 | "on-leave" is shown as "On Leave" |
| Doctors.SampleDepartments | src/pages/Doctors.tsx:217-335 | the nine sample doctors give eight tabs, Cardiology first and once |
| Doctors.SampleCardiologyTab | src/pages/Doctors.tsx:217-335 | the Cardiology department holds the first and the last sample doctor |
| Doctors.MissingLettersRuleOut | src/pages/Doctors.tsx:37-38 | a letter of the term missing from the name and one missing from the specialization rule a doctor out |
| Doctors.FirstCardiologistNotSurgeon | src/pages/Doctors.tsx:218-230 | Maria Rodriguez does not match "surgeon" |
| Doctors.CardiacSurgeonMatches | src/pages/Doctors.tsx:322-334 | Emily Harris, "Cardiac Surgeon", matches "surgeon" |
| Doctors.SampleCardiacSurgeonSearch | src/pages/Doctors.tsx:217-335 | the Cardiology tab searched for "surgeon" lists only DOC-2023-009 |
| Dashboard.SaturateBounds | src/pages/Dashboard.tsx:34-37 | `Saturate`: at or above the cap the next value is the cap; below it the counter grows but stays below cap + step; non-negative stays non-negative |
| Dashboard.TargetsAreFixed | src/pages/Dashboard.tsx:33-38 | the record of targets is left alone by `NextStats`, the updater of one tick |
| Dashboard.TicksToReach | src/pages/Dashboard.tsx:34-37 | the number of ticks a counter needs from zero to reach its cap, ceil(cap / step) |
| Dashboard.StepsFromZero | src/pages/Dashboard.tsx:32-38 | from zero a counter is n*step for n up to ceil(cap/step) ticks and the cap ever after |
| Dashboard.AfterTicksFields | src/pages/Dashboard.tsx:33-38 | after n ticks of `NextStats` each counter is its own `Steps` sequence of `Saturate` (patients cap 1254 step 50, doctors 75 and 3, appointments 328 and 15, occupancy 73 and 3), whatever the other counters do |
| Dashboard.OvershootThenSettle | src/pages/Dashboard.tsx:20-38 | patients show 1300 then 1254, appointments 330 then 328, occupancy 75 then 73; doctors reach 75 with no overshoot |
| Dashboard.SettlesOnTargets | src/pages/Dashboard.tsx:20-38 | from tick 27 on the record is the targets |
| Dashboard.StatsTicker.constructor | src/pages/Dashboard.tsx:20-25 | the counters start at zero |
| Dashboard.StatsTicker.Tick | src/pages/Dashboard.tsx:32-39 | one firing applies the updater to the record, keeping it equal to the record after that many ticks |
| Settings.ToggledSwitch | src/pages/Settings.tsx:271-276 | `Toggled` (`handleToggle(k)`) flips switch k and leaves the other seven as they were |
| Settings.ToggleTwice | src/pages/Settings.tsx:271-276 | `Toggled` twice on the same switch changes nothing |
| Settings.TogglesCommute | src/pages/Settings.tsx:271-276 | `Toggled` on two switches gives the same state in either order |
| Settings.InitialSwitches | src/pages/Settings.tsx:260-269 | initially SMS and updates are off and the other six switches on |
| Settings.NotificationSettings.constructor | src/pages/Settings.tsx:260-269 | the panel starts from the initial switches |
| Settings.NotificationSettings.HandleToggle | src/pages/Settings.tsx:271-276 | the state becomes the old state with switch k flipped |
| Settings.ValidateInSchemaOrder | src/pages/Settings.tsx:117-133 | `Validate` lists its issues in the schema's key order (name, e-mail, phone, address, website; each field ranked by `Rank`), so no field is reported twice and at most five issues come back |
| Settings.ValidateReports | src/pages/Settings.tsx:117-133 | `Validate` reports a field iff its rule (length 2, 10, 5, or the e-mail and URL checks) fails |
| Settings.ValidateMessages | src/pages/Settings.tsx:117-133 | every issue of `Validate` carries its field's message |
| Settings.ValidIff | src/pages/Settings.tsx:117-133 | `Validate` returns no issue iff the name has 2+ characters, the phone 10+, the address 5+ and the e-mail and URL pass |
| Settings.DefaultsMeetLengthRules | src/pages/Settings.tsx:137-143 | the default values meet the three length rules, so they are valid exactly when the e-mail and URL checks pass |

## Left out

- Rendering: JSX markup, icons and Tailwind classes. Only the two status-to-colour switches are modelled, for totality and distinctness.
- The Reports page and its charts, the layout shell (sidebar, header, main layout, routing title context) and the not-found page: presentation and navigation only.
- The appointment components under src/components/appointments and the type file src/types/appointments.ts repeat helpers and types that the appointments page already defines; they are not part of this model.
- Appointments.FilterByDate: `format(new Date(date), 'yyyy-MM-dd')` is the parameter `dayOf`, and the calendar's selected `Date` arrives as the already formatted day or as none. Date parsing, time zones and the sample dates built from today are not modelled.
- Appointments.GroupByTimeSlot: the dictionary is a `map` plus the sequence of its keys in insertion order. JavaScript lists integer-like keys (a time such as "9" with no colon) first in ascending order. For a key such as "constructor" or "__proto__", `acc[timeSlot]` finds a member inherited from `Object.prototype`, so `!acc[timeSlot]` creates no array and `acc[timeSlot].push` throws a TypeError on that non-array. Neither behaviour is modelled: the model gives every slot key its own array.
- Fields no core logic reads: the appointment's `reason`, and the doctor's experience, patients, rating, avatar, e-mail and phone.
- The dashboard's `setInterval` period, `clearInterval` on unmount and every `useEffect` data load: a tick is a method call, and loading is a method that replaces the list.
- zod's `.email()` and `.url()` checks are the parameters `emailOk` and `urlOk`. The react-hook-form submission, `alert` and `console.log` are not modelled.
- Text.ToLower: case conversion is ASCII only. JavaScript's Unicode case mapping and UTF-16 string lengths are not modelled, and neither is `toLocaleString` formatting.
