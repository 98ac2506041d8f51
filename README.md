# Library event analytics — a Dafny model

WCC Library Management is a single-page React application. Library staff use it to record events held at their branches: story times, author talks, workshops and so on. Each event is a record of

- title, library name, category, date;
- adults and children attending, cost, funding source, description.

The application keeps two collections, events and libraries, in local storage. Four views read them:

- the **Dashboard**: totals, upcoming events, the five most recent events, the top five categories and a card per library;
- the **Events** list: search, filters and a reset link;
- the **Libraries** page: one profile per library, with totals, averages, a category breakdown, upcoming events and the three most recent events;
- the **Reports** page: a multi-select filter, summary statistics, rows per library, per category, per month and per funding source.

A three-step form creates and edits events. The application shell holds the store handlers (add, update, delete), seeds sample data on a first visit, and highlights the current entry of the sidebar.

This project models that logic and proves what it promises.

| file | module | what it models |
|---|---|---|
| `records.dfy` | `Records` | the event and library records, ISO date text and its reading, the "upcoming" test and the recency key of the date sorts |
| `sequences.dfy` | `Sequences` | subsequences, distinctness, the cut to the first `n`, case-insensitive substring search |
| `aggregates.dfy` | `Aggregates` | sums and averages, selecting the events of one key, grouping along a reference list of keys, the conservation laws of grouping, upcoming events |
| `ranking.dfy` | `Ranking` | the in-place newest-first sort of an array and the "recent N" cut |
| `tallies.dfy` | `Tallies` | the counting loop over a dictionary keyed in first-seen order, the stable sort by count and the top-N cut |
| `reports.dfy` | `Reports` | the Reports view |
| `events.dfy` | `EventList` | the Events list view |
| `dashboard.dfy` | `Dashboard` | the Dashboard's statistics, top categories and library cards |
| `libraries.dfy` | `LibraryPage` | the Libraries view |
| `app.dfy` | `App` | the store class with its handlers, the seed data, the category list and the sidebar highlight |
| `event_form.dfy` | `EventForm` | the form class: its steps, its change handler, the preload of an edited record and the submit dispatch |
| `scenarios.dfy` | `Scenarios` | worked figures on the seed data |

How the model is built:

- **Views and reports.** Pure code in the views becomes functions with lemmas.
- **State.** The state the source updates in place becomes a class with `modifies` clauses:
  - the application's collections: `App.EventStore`;
  - the form's step and payload: `EventForm.FormWizard`.
- **Array sorts.** The sorts on arrays stay in-place methods on arrays.
- **Dictionary loops.** The loops that fill a dictionary stay `while` loops over a `map`.
- **The Dashboard sort.** The Dashboard calls `events.sort(...)` on the array the application passes it, which is the application's own state. `App.EventStore.ShowDashboard` therefore reorders the store's collection, and leaves the stored copy in its old order.

## Model

| member | source | states |
|---|---|---|
| Records.ParseIsoDate | src/components/Reports.jsx:16-17 | a text reads as a date only when it is 10 characters long, and the date read is valid (month 1-12, day 1-31) |
| Records.ParseFormat | src/components/Reports.jsx:16-17 | formatting a valid date and reading it back gives the same date |
| Records.FormatParse | src/components/Reports.jsx:16-17 | a text that reads as a date is exactly that date's `YYYY-MM-DD` text, so date texts and dates correspond one to one |
| Records.DayNumberOrder | src/components/Dashboard.jsx:11 | on valid days, comparing the day numbers used as the sort key is comparing the calendar dates |
| Records.Recency | src/components/Dashboard.jsx:11 | the sort key of an event is at least -1, and it is non-negative exactly when the date reads |
| Records.RecencyOrder | src/components/Dashboard.jsx:11 | a later date has a larger sort key, and the same date the same key |
| Sequences.Take | src/components/Dashboard.jsx:12 | `slice(0, n)` has length min(n, length) and holds the first elements in order |
| Sequences.IncludesTrans | src/components/Events.jsx:12-13 | a text containing a term contains every part of the term |
| Sequences.IncludesEmpty | src/components/Events.jsx:12-13 | the empty term occurs in every text |
| Aggregates.AttendanceSplit | src/components/Reports.jsx:24-26 | total attendance equals total adults plus total children |
| Aggregates.CostNonNegative | src/components/Reports.jsx:27 | the summed cost is not negative when no event has a negative cost |
| Aggregates.TotalsOf | src/components/Reports.jsx:23-27 | the totals of a list count its events, sum adults, children and cost, and attendance is adults plus children |
| Aggregates.TotalsAppend | src/components/Reports.jsx:23-27 | the totals of a + b are the totals of a plus the totals of b |
| Aggregates.Average | src/components/Reports.jsx:28-29 | the average is 0 when there are no events and otherwise times the count gives the total |
| Aggregates.Select | src/components/Reports.jsx:33 | a selection has at most as many events as its input |
| Aggregates.SelectSpec | src/components/Reports.jsx:33 | the selection keeps, in their order, exactly the events carrying the key, each as many times as it occurs in the input |
| Aggregates.SelectAppend | src/components/Reports.jsx:33 | selecting from a + b selects from a and then from b |
| Aggregates.SelectNone | src/components/Reports.jsx:33 | nothing is selected when no event carries the key |
| Aggregates.Groups | src/components/Reports.jsx:32-42 | there are at most as many rows as keys |
| Aggregates.GroupsSpec | src/components/Reports.jsx:32-42 | rows follow the order of the keys; each holds the totals of exactly its key's events; every key with an event has a row, and with empty groups kept every key has its row in place |
| Aggregates.Partition | src/components/Reports.jsx:32-52 | over distinct keys, the rows' totals plus the totals of the events with an unlisted key add up to the totals of all events |
| Aggregates.DropEmptyGroups | src/components/Reports.jsx:42 | dropping the empty rows does not change the sum of the rows |
| Aggregates.GroupsConserve | src/components/Reports.jsx:32-52 | when the keys list every event's key once, the rows add up to the totals of all events |
| Aggregates.RestOfCovered | src/components/Reports.jsx:32-52 | when every event's key is listed, no event is left over |
| Aggregates.Upcoming | src/components/Dashboard.jsx:6 | the upcoming events are, in order, exactly those whose date is now or later, each as many times as it occurs in the input, and there are at most as many as events |
| Ranking.StepsDescending | src/components/Dashboard.jsx:11 | a list whose neighbours do not increase in key descends as a whole |
| Ranking.Swap | src/components/Dashboard.jsx:11 | exchanging two elements of the array exchanges just those two and keeps the same elements |
| Ranking.InsertBack | src/components/Dashboard.jsx:11 | moving one element left into a descending prefix leaves the prefix one longer and descending, with the same elements, and keeps elements with equal keys in their order |
| Ranking.SortDescending | src/components/Dashboard.jsx:11 | the in-place sort leaves the array in descending key order, a permutation of what it held, and stable: for every key, the elements with that key are in their original order |
| Ranking.Recent | src/components/Dashboard.jsx:10-12 | the array is reordered newest first, stably, and holds the same events; the result is its first min(n, length) events, newest first, and none is older than an event left out |
| Ranking.SplitDescending | src/components/Dashboard.jsx:10-12 | both halves of a list sorted by a descending key are sorted, and every element of the front half ranks at least as high as every element of the back half |
| Ranking.FrontDominates | src/components/Dashboard.jsx:10-12 | the first m elements of a list sorted by a descending key rank at least as high as every element left out, a copy counting as left out when the front holds fewer copies of it than the list |
| Ranking.WithKeyAppend | src/components/Dashboard.jsx:11 | taking the elements of one key distributes over concatenation |
| Ranking.SwapKeepsTies | src/components/Dashboard.jsx:11 | exchanging two neighbours with different keys keeps, for every key, its elements in order |
| Ranking.TiesDetermineOrder | src/components/Dashboard.jsx:10-12 | two descending lists with, for every key, the same elements in the same order are equal: the stable newest-first order of a collection is unique |
| Ranking.StableFront | src/components/Libraries.jsx:139-141 | the front of a stable descending ordering comes from the input, is outranked by nothing left out (counting copies), and holds for every key the first input elements with that key |
| Tallies.KeysSeenSpec | src/components/Dashboard.jsx:14-17 | the dictionary's keys, in creation order, are distinct and are exactly the keys of the events |
| Tallies.CategoryTalliesSpec | src/components/Dashboard.jsx:14-17 | one entry per category of the events, in first-seen order; each count is the number of events in that category and at least 1; the counts add up to the number of events |
| Tallies.TalliesOver | src/components/Dashboard.jsx:14-17 | over any distinct list of exactly the events' categories: one entry per category in list order, each counting that category's events (at least one), the counts adding up to the number of events |
| Tallies.Accumulate | src/components/Dashboard.jsx:14-17 | the dictionary loop ends with the keys in first-seen order, and each key maps to the totals of exactly the events with that key |
| Tallies.CountByCategory | src/components/Dashboard.jsx:14-19 | the counting loop yields the category entries in first-seen order with their counts |
| Tallies.SortByCount | src/components/Dashboard.jsx:20 | the sort keeps the length |
| Tallies.SortByCountSpec | src/components/Dashboard.jsx:20 | the sort orders by descending count, keeps the same entries, and keeps entries with equal counts in their input order |
| Tallies.InsertSteps | src/components/Dashboard.jsx:20 | inserting into a list that descends by count keeps it descending |
| Tallies.InsertPerm | src/components/Dashboard.jsx:20 | inserting adds exactly the one entry |
| Tallies.InsertStable | src/components/Dashboard.jsx:20 | inserting an entry puts it ahead of the entries with its count and leaves those of other counts as they were |
| Tallies.TopSpec | src/components/Dashboard.jsx:19-21 | the top n are at most n entries in descending count; together with those left out they are exactly the input; none left out has a larger count than one kept |
| Tallies.TopStable | src/components/Dashboard.jsx:19-21 | ties keep input order: the top entries with a given count are the first entries with that count in the input |
| Tallies.TopDominates | src/components/Dashboard.jsx:19-21 | every top entry comes from the input, and no entry left out outranks one kept, a copy counting as left out when the top holds fewer copies of it than the input |
| Reports.FilterEvents | src/components/Reports.jsx:13-20 | the filtered list is no longer than the input |
| Reports.FilterSpec | src/components/Reports.jsx:13-20 | the filter keeps, in order, exactly the events whose category and library are chosen (or no choice is made) and whose date lies within each given bound, each as many times as it occurs in the input |
| Reports.NoFilterKeepsAll | src/components/Reports.jsx:13-20 | with no category, no library and no date chosen, every event is kept |
| Reports.BoundsInclusive | src/components/Reports.jsx:16-17 | an event dated exactly on a bound passes it, at both ends |
| Reports.StricterFilter | src/components/Reports.jsx:13-20 | a filter whose test implies another's keeps a subsequence of what the other keeps |
| Reports.AddConstraint | src/components/Reports.jsx:13-20 | setting a date bound where there was none, or narrowing a category or library list (an empty list meaning all), never enlarges the result |
| Reports.ClearFilters | src/components/Reports.jsx:95-100 | all four filters are empty afterwards |
| Reports.ClearedShowsAll | src/components/Reports.jsx:95-100 | after clearing, the report covers every event |
| Reports.Without | src/components/Reports.jsx:82 | removing an item leaves, in order, every other element as many times as it occurred, and no copy of the item |
| Reports.ToggleSpec | src/components/Reports.jsx:79-93 | a toggle flips whether the clicked item is chosen; every other item is chosen exactly when it was; order is kept; a list without repeats stays without |
| Reports.WithoutAbsent | src/components/Reports.jsx:82 | removing an item that is not there changes nothing |
| Reports.ToggleCategory | src/components/Reports.jsx:79-85 | only the category choice changes, by the toggle |
| Reports.ToggleLibrary | src/components/Reports.jsx:87-93 | only the library choice changes, by the toggle |
| Reports.Summarize | src/components/Reports.jsx:23-29 | the summary counts the events, sums attendance as adults plus children and cost, and its averages are 0 when empty and otherwise times the count give the totals |
| Reports.EventsPerLibrarySpec | src/components/Reports.jsx:32-42 | library rows follow the order of the libraries, omit libraries without events, and each counts and sums exactly its library's events |
| Reports.CategoryDataSpec | src/components/Reports.jsx:45-52 | category rows follow the category list, omit empty categories, and each counts exactly its category's events |
| Reports.FundingDataSpec | src/components/Reports.jsx:71-75 | at most three rows, in the order Library Budget, Donation, Other, each with events; their amounts plus the cost of events with another funding text make the total cost, so amounts sum to at most the total when no cost is negative |
| Aggregates.KeptGroupsOver | src/components/Reports.jsx:71-75 | over distinct keys, the non-empty groups number at most the keys, follow key order, each hold their key's totals, and with the cost of the events no key names make up the whole cost (at most the whole when no cost is negative) |
| Reports.MonthOrderTotal | src/components/Reports.jsx:66-68 | any two different month keys are ordered one way or the other |
| Reports.InsertMonth | src/components/Reports.jsx:66-68 | inserting a key adds exactly that key |
| Reports.SortMonths | src/components/Reports.jsx:66-68 | the sort keeps exactly the same keys |
| Reports.SortMonthsAscends | src/components/Reports.jsx:66-68 | sorting distinct month keys puts them in strictly ascending order |
| Reports.AscendingDistinct | src/components/Reports.jsx:66-68 | keys in strictly ascending order are distinct |
| Reports.SortedMonthKeys | src/components/Reports.jsx:55-68 | the sorted month keys ascend and are exactly the months of the events |
| Reports.MonthlyRowsSpec | src/components/Reports.jsx:55-68 | rows ascend by month; a row exists for exactly the months with events; each holds its month's totals; the rows add up to the totals of all events |
| Reports.MonthRowsOver | src/components/Reports.jsx:55-68 | grouping by month over any distinct list of exactly the events' months gives one row per key in key order, each holding its month's totals, and the rows add up to the totals of all events |
| Reports.MonthlyTrends | src/components/Reports.jsx:55-68 | the dictionary loop followed by the sort yields exactly the monthly rows |
| EventList.Visible | src/components/Events.jsx:11-20 | the table is no longer than the list |
| EventList.VisibleSpec | src/components/Events.jsx:11-20 | the table shows, in order, exactly the events matching search, library, category and both date bounds, each as many times as it occurs in the list |
| EventList.EmptySearchMatches | src/components/Events.jsx:12-13 | an empty search term matches every event |
| EventList.EmptyQueryShowsAll | src/components/Events.jsx:11-20 | with every input empty, every event is shown |
| EventList.MentionsIgnoresCase | src/components/Events.jsx:12-13 | lower-casing the text or the term first does not change whether it matches |
| EventList.RefinedMatches | src/components/Events.jsx:11-20 | an event matching a stricter query matches the looser one |
| EventList.RefineNarrows | src/components/Events.jsx:11-20 | a stricter query shows a subsequence of what the looser one shows |
| EventList.ClearQuery | src/components/Events.jsx:89-95 | the reset empties all five inputs, the search included |
| EventList.ClearLinkLaws | src/components/Events.jsx:87-97 | the "Clear filters" link is gone once clicked, and while it is hidden (no library, category or date chosen) only the search term narrows the table |
| EventList.ClearShowsAll | src/components/Events.jsx:89-95 | after the reset every event is shown |
| EventList.Shorten | src/components/Events.jsx:136 | a description of at most 60 characters is shown unchanged; a longer one as its first 60 characters followed by "..." |
| EventList.ShortenIdempotent | src/components/Events.jsx:136 | a shown description has at most 63 characters, and shortening it again changes nothing |
| Dashboard.StatsOf | src/components/Dashboard.jsx:5-8 | totals count the events and libraries; upcoming is the number of upcoming events and at most the total; attendance is adults plus children; the average cost is 0 with no events and otherwise times the count gives the total |
| Dashboard.TopCategoriesSpec | src/components/Dashboard.jsx:14-21 | at most five categories, largest count first; each count is the number of its events; no category left out (counting copies) has more events than one shown; ties keep first-seen order |
| Dashboard.TopCategoriesOf | src/components/Dashboard.jsx:14-21 | the counting loop, sort and cut give exactly the top five categories |
| Dashboard.LibraryCardsSpec | src/components/Dashboard.jsx:144-147 | one card per library, in order; each card's count, attendance and cost cover exactly the events whose library is that library's name |
| LibraryPage.EventsAtSpec | src/components/Libraries.jsx:14 | a profile covers, in order, exactly the events held at the library, each as many times as it occurs in the list |
| LibraryPage.ProfileFigures | src/components/Libraries.jsx:14-18 | the profile's totals are sums over its events; its averages are 0 with no events and otherwise times the count give the totals |
| LibraryPage.BreakdownAddsUp | src/components/Libraries.jsx:20-23 | the category counts of a profile add up to its number of events |
| LibraryPage.UpcomingAt | src/components/Libraries.jsx:25 | the upcoming events are, in order, the library's events that are upcoming, each as many times as it occurs in the list |
| LibraryPage.RecentOfSorted | src/components/Libraries.jsx:139-141 | the first three of a stable newest-first ordering of the library's events: three or all, newest first, a sub-multiset, outranked by no copy left out, and for every date the first events with it |
| LibraryPage.RecentAt | src/components/Libraries.jsx:139-141 | at most three of the library's events, newest first, all from the library; none is older than an event left out, where a record listed twice but chosen once counts as left out; for every date, the chosen events with that date are the first ones with it in the library's list |
| App.MaxId | src/App.jsx:112 | the largest id is at least every id and is the id of some event |
| App.NextId | src/App.jsx:112 | the new id is above every existing id, and is 1 when there are no events |
| App.NextIdIsMaxPlusOne | src/App.jsx:112 | the new id is one more than the id of some event |
| App.NextIdExample | src/App.jsx:112 | existing ids 1, 3 and 4 give 5 |
| App.ReplaceById | src/App.jsx:120 | the length is kept |
| App.ReplaceByIdSpec | src/App.jsx:119-123 | every position keeps its id; records with the id take the new data; all other records are untouched; unique ids stay unique; an absent id changes nothing |
| App.RemoveById | src/App.jsx:126 | the result is no longer than the input |
| App.RemoveByIdSpec | src/App.jsx:125-129 | the result keeps, in order, exactly the records with another id, each as many times as it occurred; an absent id changes nothing |
| App.RemoveKeepsUniqueIds | src/App.jsx:125-129 | removing records keeps unique ids unique |
| App.SeedIds | src/App.jsx:35-103 | the seed has five events with ids 1-5 and costs 150, 500, 200, 50 and 300, and three libraries with ids 1-3 |
| Scenarios.SeedDatesReadable | src/App.jsx:41-85 | every seeded date is a readable `YYYY-MM-DD` date |
| App.SeedReferences | src/App.jsx:35-103 | every seeded event names a listed category and one of the seeded libraries |
| App.NavigationSpec | src/App.jsx:153-195 | the Dashboard entry is highlighted on "/" only; another entry on its path and the paths below it; never two entries at once |
| App.NavigationExamples | src/App.jsx:153-155 | the Events entry is highlighted on the add and edit forms, not on "/eventsx" |
| App.EventStore.Load | src/App.jsx:26-107 | each collection is the saved one, or the seed when nothing was saved, and the storage then holds both |
| App.EventStore.AddEvent | src/App.jsx:109-117 | the new event is appended with the next id, above every other id; unique ids stay unique; the libraries are untouched; the collection is saved |
| App.EventStore.UpdateEvent | src/App.jsx:119-123 | the collection becomes the replaced one; the libraries are untouched; it is saved |
| App.EventStore.DeleteEvent | src/App.jsx:125-129 | the collection becomes the filtered one; the libraries are untouched; it is saved |
| App.EventStore.ShowDashboard | src/components/Dashboard.jsx:5-21 | the store's collection is sorted newest first in place, stably (events sharing a date keep their order), and holds the same events, without being saved; the recent list is its first five; the statistics are those of the collection; the top categories are counted from the sorted order |
| EventForm.FindById | src/components/EventForm.jsx:28 | nothing is found exactly when no record has the id; a found record has the id |
| EventForm.FindFirst | src/components/EventForm.jsx:28 | the record found is the first with the id |
| EventForm.PreloadSpec | src/components/EventForm.jsx:26-33 | a new form, or an edit form whose id no record has, starts from the initial payload; otherwise the payload is that of the record with the id |
| EventForm.EditUnchangedIsNoOp | src/components/EventForm.jsx:26-67 | opening a record's edit form and submitting it unchanged leaves the collection as it was |
| EventForm.Apply | src/components/EventForm.jsx:35-57 | a text input stores its text verbatim, a count input its parsed number or 0, the cost input its parsed amount or 0; every other field keeps its value |
| EventForm.ApplyLaws | src/components/EventForm.jsx:35-57 | repeating a change changes nothing more; changes to different fields can be made in either order |
| EventForm.StepOf | src/components/EventForm.jsx:129-286 | each input belongs to one of the three steps: title, library, category, date and description to step 1; the counts to step 2; cost and funding source to step 3 |
| EventForm.GateLaws | src/components/EventForm.jsx:12-24 | a fresh form cannot leave step 1 and has no negative count; the four inputs `canProceedStep1` checks are all on step 1; any other change, the description included, does not affect whether step 1 is complete |
| EventForm.FormWizard.Open | src/components/EventForm.jsx:9-33 | the form starts on step 1 with the preloaded payload |
| EventForm.FormWizard.HandleChange | src/components/EventForm.jsx:35-57 | the payload takes the change and the step is kept; a change from the current step's inputs, or any change to an input step 1 does not check, keeps the form's invariant |
| EventForm.FormWizard.NextStep | src/components/EventForm.jsx:69-73 | one step on except on step 3, staying within 1..3; the payload is untouched |
| EventForm.FormWizard.PrevStep | src/components/EventForm.jsx:75-79 | one step back except on step 1, staying within 1..3 and keeping the invariant; the payload is untouched |
| EventForm.FormWizard.PressNext | src/components/EventForm.jsx:350-357 | the step advances exactly when before step 3 and not held at step 1 by an incomplete step 1; steps 2 and 3 are reached only with step 1 complete |
| EventForm.FormWizard.Submit | src/components/EventForm.jsx:59-67 | editing replaces the record with the form's id by the payload; creating appends the payload with the next id; the new collection is saved; the libraries and their saved copy are untouched |
| Scenarios.SeedNextId | src/App.jsx:35-113 | the first event created after the seed gets id 6 |
| Scenarios.CentralLibraryCard | src/App.jsx:35-103 | Central Library holds two seeded events with 28 adults, 25 children, 53 attendees and a cost of 350 |
| Scenarios.SeedDatesParse | src/App.jsx:35-91 | the seeded date texts read as their days |
| Scenarios.JanuaryKept | src/components/Reports.jsx:13-20 | of the seeded events, a report filtered from 1 January 2025 passes exactly the last three, whose dates fall on or after that day |
| Scenarios.ReportFromJanuary | src/components/Reports.jsx:13-20 | a report from 2025-01-01 on keeps the three January seed events, costing 550 |

## Left out

- Rounding and display formatting are not modelled: `Math.round`, `toFixed`, `toLocaleString` and `toLocaleDateString`. Averages are exact ratios, with 0 when there are no events.
- Calendar validity is only partly checked. A date reads when it is `YYYY-MM-DD` with month 1-12 and day 1-31, so 31 February is accepted. Other formats that JavaScript's `Date` would accept, and time zones other than UTC, are not modelled.
- Sorting with an unreadable date is not modelled as JavaScript does it. JavaScript's comparator gives NaN there, and the resulting order depends on the engine. In the model, such events sort last in recent lists, and their month bucket sorts after every month.
- Records.Recency: the sort key is a day number with 31 slots per month rather than a millisecond timestamp. For real calendar days it orders dates exactly as the timestamps do. A day past the end of its month that the model reads, such as "2024-02-31", gets its own slot after the month's last real day and before the next month's first day. `new Date` instead rolls such a day over into the next month (so "2024-02-31" comes after "2024-03-01") or rejects it, depending on the engine.
- Reports.MonthlyRowsSpec: a month row is keyed by (year, month), not by its "Jan 2025" label. The ordering of rows follows the calendar, which is what sorting the parsed labels does.
- Tallies.CategoryTalliesSpec: JavaScript object keys that look like integers come first in `Object.entries`. The model keeps pure first-seen order; category names are not integers.
- Lower-casing covers ASCII letters only.
- EventList.Shorten: counts Unicode characters, while `description.length` and `substring(0, 60)` count UTF-16 code units. A description with characters outside the Basic Multilingual Plane (emoji, for instance) is therefore cut at a different place: 59 letters and one emoji are 61 code units, so the view shortens them (splitting the emoji's surrogate pair), while the model shows them unchanged.
- Storage is not modelled as JSON. `localStorage` is a ghost copy of each collection in `App.EventStore`. The cases where saved text is unreadable or not a list are left out.
- The router is left out. A non-numeric edit id reads as NaN, which no record has; it behaves as `Editing` with an id no record has.
- The `window.confirm` prompt before a delete is left out. A confirmed delete is `App.EventStore.DeleteEvent`; a cancelled one changes nothing.
- Browser validation of `required` and `min="0"` inputs is left out. The model stores negative counts or costs if `parseInt`/`parseFloat` yield them.
- `parseInt`/`parseFloat` themselves are left out. A change carries their result as an option, with `None` for NaN.
- The Reports "attendance rate" with its fixed capacity of 50 is left out: it is display arithmetic.
- The libraries collection has no handlers in the application. Libraries are only loaded and seeded.
- An update of an id no record has changes nothing (`src/App.jsx:119-123`); no error is raised, and the model does the same.
- The store checks no payload: it accepts empty required fields and unreadable dates. The only check is the form's step-1 gate, and that is what the model has.
- Aggregates.CostNonNegative and Reports.FundingDataSpec: "funding amounts add up to at most the total cost" is proved only when no cost is negative. In general the model states the exact identity with the cost of events whose funding text is none of the three.
- LibraryPage.RecentAt: the view shows the recent list only when the library has events. The method returns the empty list in that case.
- Tallies.Accumulate: the per-category counts are held as full totals, of which the count is used.
- Dashboard.TopCategoriesSpec: the top-five cut is stated for the category entries. Rendering the entries is not modelled.
- EventForm.FormWizard.PressNext: `canProceedStep2` (src/components/EventForm.jsx:82) is computed but no button consults it. Step 2 lets the user on whatever the counts are, and the model does the same. The predicate is `EventForm.CanProceedStep2`.
