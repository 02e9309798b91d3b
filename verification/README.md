# Advocates directory: a Dafny model of its rules

The directory is a Next.js application that lists "advocates": people with a
name, city, degree, specialties, years of experience and a phone number.
Under its React views sit a few exact rules, and this project states them as
pure Dafny functions with proved properties.

- **API route** (`AdvocatesRoute`, with `Paging`): `GET /api/advocates` reads
  every record from the store. It keeps the records whose specialties
  include the `specialty` parameter and whose city equals the `city`
  parameter. An absent or empty parameter applies no filter. It counts the
  survivors, cuts page `page` of size `pageSize` (defaults 1 and 10), and
  reports `total`, `page`, `pageSize` and `totalPages = ceil(total / pageSize)`.
  A store failure becomes status 500 with `{error: "Failed to fetch advocates"}`.
- **Rate limiter** (`RateLimit`): a fixed one-minute window per client
  identity with a cap of 100. The cap is compared with the count *before* it
  is incremented. `Check` is a transition function on an explicit
  `map<string, Entry>` with the current time passed in. `Middleware` adds
  the `/api` path gate, the `x-forwarded-for`-or-`"unknown"` identity and
  the 429 reply.
- **Pagination strip** (`PaginationNav`): `getPageNumbers`, with its three
  collapsed shapes for more than seven pages, and the previous/next arrows.
- **Directory page** (`DirectoryPage`, with `Text` and `Sorting`): the
  case-insensitive search, the all-selected-specialties filter, the sort
  options, the page cut with its reset to page 1, the specialty toggle, the
  sorted distinct specialty list, and the "Showing X to Y" positions.
- **Advocate card** (`AdvocateCard`): ten-digit phone formatting, initials,
  the avatar colour bucket, the collapsed specialty tags with "+N more", and
  "year"/"years".
- **Specialty checklist** (`SpecialtyFilter`): a list of more than 15
  entries starts collapsed to its first 10 behind a "Show all (n)" button.
  Selected entries are marked, a click reports its own specialty, and a line
  counts the selection.
- **Validation schema** (`Schema`): `advocateSchema` on a parsed JSON value.
  The four names must be non-empty strings, `specialties` a list of strings,
  and the two numbers positive integers. The result is the record, or the
  failing fields in schema order.

The shared record type is `AdvocateTypes.Advocate`
(`src/types/advocate.ts:3-13`). `Common` holds `Option`, `Result` and the
order-preserving `Filter` that the route, the page and the schema all use.

Some inputs are passed in as parameters: the store's outcome (a `Result`),
the clock (`now`), the rate-limit table, the React state the page reads
(`currentPage`, `itemsPerPage`, `searchTerm`, `selectedSpecialties`,
`sortOption`, `showAll`, `isExpanded`), and the engine's `localeCompare`.

Where the code and its surrounding material disagree, the model follows the
code:

- The API route keeps no cache and emits no `status` or `lastUpdated` field.
  The API tests at `src/__tests__/api/advocates.test.ts:80` and `:97` expect
  such a field.
- The recorded output in `test-rate-limit.js:22-27` shows requests 1 to 101
  admitted and 102 refused, and the code agrees (`RateLimit.FirstWindow`).
  The prose at `test-rate-limit.js:33-34` says the 101st is refused.
- The schema has no digit-count rule for `phoneNumber`, so `123` is accepted
  (`Schema.ShortPhoneAccepted`). The test at
  `src/__tests__/db/schema.test.ts:87-94` expects it to be rejected.
- The page fetches its client-side list with `pageSize=100`
  (`src/app/page.tsx:108`). Search and the specialty list therefore only
  ever see the first 100 advocates. The model's functions take that list as
  a parameter.
- `showAll` in the checklist is initialised once, when the component mounts.
  The page renders the checklist twice. The desktop sidebar's checklist
  (`src/app/page.tsx:420-442`) is always mounted, so it first appears before
  the advocates have loaded, with an empty list. A long list that arrives
  later is therefore shown in full under "Show less"
  (`SpecialtyFilter.MountedBeforeLoad`). The mobile overlay's checklist
  (`src/app/page.tsx:371-395`) is mounted each time the overlay opens. Opened
  after loading, it starts collapsed under "Show all (n)"
  (`SpecialtyFilter.InitialView`).
- The count line says "N specialties selected" even for one selection.

## Model

| member | source | states |
|---|---|---|
| Common.FilterContents | src/app/api/advocates/route.ts:25-33 | `filter` keeps an element iff it passes the predicate, and keeps each kept value exactly as many times as it occurs in the input |
| Common.FilterAppend | src/app/page.tsx:155-180 | filtering a concatenation is the concatenation of the filtered parts, so `filter` preserves relative order |
| Common.FilterKeepsAll | src/app/page.tsx:173-174 | a filter that every element passes returns the input unchanged |
| Common.FilterDropsOne | src/app/page.tsx:257 | filtering out one failing element that sits between passing ones leaves the rest in order |
| Text.ContainsTransitive | src/app/page.tsx:161-170 | `includes` is transitive: a string that contains `b` contains everything `b` contains |
| Text.ContainsLower | src/app/page.tsx:157-170 | if `sub` occurs in `s`, then lower-cased `sub` occurs in lower-cased `s` |
| Text.LowerIdempotent | src/app/page.tsx:157-158 | lower-casing an already lower-cased string changes nothing |
| Text.DecimalRoundTrip | src/components/AdvocateCard.tsx:52 | reading back the digits of `toString` of a natural number gives the number |
| Text.DecimalLengthIff | src/components/AdvocateCard.tsx:52-53 | a positive number prints with exactly `k` digits iff it lies in `[10^(k-1), 10^k)` |
| Sorting.InsertionSort | src/app/page.tsx:183-211 | the sort returns a permutation of its input, of the same length |
| Sorting.InsertionSortSorted | src/app/page.tsx:185-194 | under a total preorder the sort's output is ordered by it |
| Sorting.SortedDistinct | src/app/page.tsx:149-151 | `Array.from(new Set(xs)).sort()` is strictly increasing and holds exactly the values of `xs` |
| Sorting.StrictlySortedDistinct | src/app/page.tsx:149-151 | a strictly increasing list holds no value twice |
| Paging.TimesIsProduct | src/app/api/advocates/route.ts:37-38 | the repeated-addition offset equals `(page - 1) * pageSize` and `page * pageSize` |
| Paging.PageCount | src/app/api/advocates/route.ts:47 | `ceil(total / size)` is the least page count whose pages hold `total` items; it is 0 iff `total` is 0 |
| Paging.PastLastPage | src/app/api/advocates/route.ts:36-47 | a page number exceeds the page count iff its offset reaches the end of the list |
| Paging.PageSlice | src/app/api/advocates/route.ts:36-39 | the page is the contiguous block at offset `(page - 1) * size` of length `min(size, max(0, n - offset))`, and it is empty iff the page lies past the last one |
| Paging.PagesUpToPrefix | src/app/api/advocates/route.ts:36-39 | pages `1..n` laid end to end are the prefix of the list up to `n * size` |
| Paging.AllPagesReassemble | src/app/api/advocates/route.ts:35-47 | pages `1..totalPages` laid end to end give back the whole list, nothing lost or repeated |
| AdvocatesRoute.ApplyFilters | src/app/api/advocates/route.ts:23-33 | a record is kept iff it has the specialty (when given and non-empty) and is in the city (when given and non-empty), with its multiplicity; with neither parameter the list is unchanged |
| AdvocatesRoute.ApplyFiltersAppend | src/app/api/advocates/route.ts:25-33 | the two filters preserve the store's order: filtering a concatenation filters each part |
| AdvocatesRoute.Get | src/app/api/advocates/route.ts:12-57 | a store failure, and only a store failure, gives 500 with the fixed error body. On success: page and size are echoed (defaults 1 and 10); `total` counts the filtered records; `totalPages` is the least count covering them; `data` is the page's block of the filtered list and is empty iff the page lies past the last |
| AdvocatesRoute.DataOfPage | src/app/api/advocates/route.ts:36-39 | the data of the request for page `n` is the `n`-th page of the filtered list, whatever page the query itself named |
| AdvocatesRoute.TotalIgnoresPaging | src/app/api/advocates/route.ts:35 | two requests with the same filters report the same `total`, whatever their `page` and `pageSize` |
| AdvocatesRoute.DataOfPagesIsPagesUpTo | src/app/api/advocates/route.ts:36-39 | requesting pages `1..n` and concatenating their data gives pages `1..n` of the filtered list |
| AdvocatesRoute.PagesReassembleFilteredList | src/app/api/advocates/route.ts:35-47 | requesting pages `1..totalPages` and concatenating their data gives exactly the filtered list |
| RateLimit.Check | src/middleware.ts:9-30 | only the caller's entry changes. A new or expired identity (strictly more than 60 000 ms) is admitted with `{1, now}`. Within the window the count goes up by one, the window start stays, and the request is admitted iff the earlier count was at most 100 |
| RateLimit.CheckPreservesWellFormed | src/middleware.ts:14-29 | every stored entry keeps a count of at least one |
| RateLimit.ReplayInWindow | src/middleware.ts:27-29 | inside one window, the `i`-th further request is admitted iff `count + i <= 100`, and afterwards the count has grown by the number of requests while the window start is unchanged |
| RateLimit.FirstWindow | src/middleware.ts:14-29 | a new identity sending requests inside one window has requests 1 to 101 admitted and every later one refused |
| RateLimit.RejectionPersists | src/middleware.ts:28-29 | a refused request still counts, so every later request in the same window is refused too |
| RateLimit.ClientId | src/middleware.ts:39 | the identity is the `x-forwarded-for` value when present and non-empty, otherwise the shared `"unknown"` |
| RateLimit.Middleware | src/middleware.ts:33-49 | a path outside `/api` passes with the table untouched. An `/api` request passes iff `Check` admits it, keeps `Check`'s new table, and is otherwise answered 429 `{error: "Too many requests"}` |
| RateLimit.OverCapOnlyApiRefused | src/middleware.ts:33-49 | an identity over the cap inside its window is answered 429 on every `/api` path and passes on every other path |
| RateLimit.AnonymousRequestsShareEntry | src/middleware.ts:39-41 | `/api` requests without a usable `x-forwarded-for` all count against the one `"unknown"` entry |
| PaginationNav.PageNumbers | src/components/Pagination.tsx:35-66 | up to seven pages lists `1..totalPages` (nothing for 0). More pages give seven entries from 1 to the last, in the start, end or middle shape chosen by the current page |
| PaginationNav.PageNumbersWellOrdered | src/components/Pagination.tsx:35-66 | for any current page, the numbers lie in `1..totalPages` and strictly increase. An ellipsis sits between two non-consecutive numbers, and adjacent numbers are consecutive |
| PaginationNav.LongStripWellOrdered | src/components/Pagination.tsx:41-66 | the same ordering and gap properties for the collapsed strip of more than seven pages |
| PaginationNav.CurrentPageShownOnce | src/components/Pagination.tsx:35-66 | a current page in range has exactly one button |
| PaginationNav.ActiveButton | src/components/Pagination.tsx:96-101 | some button is highlighted as current iff the current page is in `1..totalPages`, and never two |
| PaginationNav.ArrowsStayInRange | src/components/Pagination.tsx:79-113 | from a page in range both arrows stay in range. An enabled arrow moves exactly one page, and an arrow is disabled iff following it would not move |
| DirectoryPage.SearchIgnoresCase | src/app/page.tsx:157-170 | an advocate matches a term iff it matches the lower-cased term |
| DirectoryPage.SearchNarrows | src/app/page.tsx:161-170 | whoever matches a term also matches every substring of it |
| DirectoryPage.MoreSpecialtiesNarrow | src/app/page.tsx:173-177 | selecting one more specialty never lets a new advocate through |
| DirectoryPage.FilterAdvocates | src/app/page.tsx:155-180 | an advocate is kept iff search and specialty selection both match, with its multiplicity; an empty term and selection keep the list as it is |
| DirectoryPage.SortResults | src/app/page.tsx:183-211 | every option returns a permutation. "experience-high" is non-increasing and "experience-low" non-decreasing in years; "default" and unknown options keep the order |
| DirectoryPage.FilterView | src/app/page.tsx:213-224 | the count is the sorted list's length and the page count is its ceiling. The shown page is the page's cut of the sorted list, holding only advocates that pass the filter. The current page resets to 1 exactly when it exceeds the page count |
| DirectoryPage.ResetSettles | src/app/page.tsx:213-224 | re-running the step with the page it chose keeps that page, and that page is non-empty when anything matches |
| DirectoryPage.ShowingRangeMatchesPage | src/app/page.tsx:289-290 | on a page in range, `startItem..endItem` are in `1..n` and name exactly the items of the page cut |
| DirectoryPage.ShowingAllIffOnePage | src/app/page.tsx:289-292 | the results line says "Found N" iff the whole list fits on one page (at most one page), whatever the current page |
| DirectoryPage.ToggleSpecialty | src/app/page.tsx:254-259 | membership flips for the toggled specialty and for nothing else. An unselected one is appended at the end. A selected one loses every copy, every other value keeps its count, and the rest stay in their order |
| DirectoryPage.UntickKeepsOrder | src/app/page.tsx:254-259 | unticking a specialty selected once leaves the selections before and after it, in order |
| DirectoryPage.ToggleTwiceRestores | src/app/page.tsx:254-259 | toggling an unselected specialty on and off again gives back the selection exactly |
| DirectoryPage.AllListed | src/app/page.tsx:150 | `flatMap` holds exactly the specialties of some advocate |
| DirectoryPage.AllSpecialties | src/app/page.tsx:149-151 | the list is strictly increasing and holds exactly the specialties of some advocate |
| AdvocateCard.FormatPhoneNumber | src/components/AdvocateCard.tsx:51-60 | the number is formatted iff its decimal string has ten characters, giving fourteen characters; otherwise the number itself comes back |
| AdvocateCard.FormattedPhoneRoundTrip | src/components/AdvocateCard.tsx:54-57 | removing `(`, `)`, space and `-` from a formatted number gives back its digit string |
| AdvocateCard.FormattedIffTenDigits | src/components/AdvocateCard.tsx:51-59 | a positive number is formatted iff it lies in `[1 000 000 000, 10 000 000 000)` |
| AdvocateCard.SamplePhone | src/components/AdvocateCard.tsx:51-58 | 1234567890 is shown as "(123) 456-7890" |
| AdvocateCard.Initials | src/components/AdvocateCard.tsx:62 | with both names non-empty the initials are their two first letters |
| AdvocateCard.SampleInitials | src/components/AdvocateCard.tsx:62 | John Doe has the initials "JD" |
| AdvocateCard.CharCodeSumAppend | src/components/AdvocateCard.tsx:75-77 | the character-code sum of a concatenation is the sum of the parts' sums |
| AdvocateCard.ColorIndex | src/components/AdvocateCard.tsx:75-78 | the bucket is a valid index into the six-colour palette |
| AdvocateCard.ColorForName | src/components/AdvocateCard.tsx:65-79 | the colour is one of the palette's classes |
| AdvocateCard.ColorIgnoresNameOrder | src/components/AdvocateCard.tsx:75-83 | "first last" and "last first" get the same colour |
| AdvocateCard.SpecialtyTags | src/components/AdvocateCard.tsx:117-128 | expanded shows every specialty with no more-tag. Collapsed shows the first `min(3, n)`, with a more-tag iff `n > 3`, and the shown tags plus the more-tag's count add up to `n` |
| AdvocateCard.SampleMoreLabel | src/components/AdvocateCard.tsx:124-127 | two hidden specialties read "+2 more" |
| AdvocateCard.YearWord | src/components/AdvocateCard.tsx:107-108 | the word is "year" iff the count is exactly 1, else "years" |
| AdvocateCard.SampleExperience | src/components/AdvocateCard.tsx:107-108 | 5, 1 and 0 read "5 years", "1 year" and "0 years experience" |
| AdvocateCard.RenderCard | src/components/AdvocateCard.tsx:85-168 | the card shows the advocate's initials, palette colour, full name, experience line and specialty tags. The "+n more" tag appears iff it is collapsed with more than three specialties, n being the hidden count. The formatted phone line appears iff it is expanded, and the toggle reads "Show less" or "Show more" accordingly |
| SpecialtyFilter.Displayed | src/components/SpecialtyFilter.tsx:34 | the listed entries are a prefix: all of them, or the first `min(10, n)` |
| SpecialtyFilter.Rows | src/components/SpecialtyFilter.tsx:38-60 | each row shows its specialty, is checked iff the specialty is selected, and reports that specialty when clicked |
| SpecialtyFilter.ToggleLabel | src/components/SpecialtyFilter.tsx:63-70 | a button exists iff the list has more than 15 entries; it reads "Show less" when expanded and "Show all (n)" when collapsed |
| SpecialtyFilter.SelectionLine | src/components/SpecialtyFilter.tsx:72-79 | the count line appears iff something is selected, and gives the number selected |
| SpecialtyFilter.SelectionLineFollowsToggle | src/components/SpecialtyFilter.tsx:72-79 | ticking an unselected specialty through the page's toggle raises the count line by one; unticking the only selected one removes the line |
| SpecialtyFilter.InitialView | src/components/SpecialtyFilter.tsx:32-34 | at first a short list is shown in full with no button, and a long list shows exactly its first ten under "Show all (n)" |
| SpecialtyFilter.ToggleTwiceRestores | src/components/SpecialtyFilter.tsx:33-68 | expanding a collapsed long list keeps its ten rows, checks included, as the prefix of the full list under "Show less". Pressing again restores the panel as first shown |
| SpecialtyFilter.MountedBeforeLoad | src/components/SpecialtyFilter.tsx:33 | a panel first shown with no specialties stays expanded, so a long list arriving later is listed in full under "Show less" |
| SpecialtyFilter.ClickFlipsOnlyThatRow | src/components/SpecialtyFilter.tsx:42-56 | clicking a row flips that row's checked state through the page's toggle and leaves rows for other specialties as they were |
| Schema.FailingFields | src/db/schema.ts:28-36 | a field is listed iff its check fails, and the list is empty iff every check passes |
| Schema.Build | src/db/schema.ts:28-36 | the record carries exactly the seven checked values, with non-empty names, positive counts and no `id` or `createdAt` |
| Schema.Validate | src/db/schema.ts:28-36 | accepted iff the input is an object whose seven checks all pass. A non-object gives one whole-input issue, and a rejected object one issue per failing field in schema order |
| Schema.ValidateToJson | src/db/schema.ts:28-36 | a record meeting the schema, written out as JSON, validates back to itself |
| Schema.OneBadField | src/db/schema.ts:28-36 | spoiling one field of an accepted object yields exactly one issue, naming that field |
| Schema.SampleAccepted | src/db/schema.ts:28-36 | the sample record passes every check |
| Schema.EmptyFirstNameRejected | src/db/schema.ts:29 | an empty first name is rejected, naming only `firstName` |
| Schema.NonStringSpecialtyRejected | src/db/schema.ts:33 | a specialty list holding a number or null is rejected, naming only `specialties` |
| Schema.ZeroYearsRejected | src/db/schema.ts:34 | zero years of experience is rejected, naming only `yearsOfExperience` |
| Schema.NegativeYearsRejected | src/db/schema.ts:34 | -1 years of experience is rejected, naming only `yearsOfExperience` |
| Schema.FractionalYearsRejected | src/db/schema.ts:34 | 2.5 years of experience is rejected, naming only `yearsOfExperience` |
| Schema.NegativePhoneRejected | src/db/schema.ts:35 | a negative phone number is rejected, naming only `phoneNumber` |
| Schema.ShortPhoneAccepted | src/db/schema.ts:35 | the three-digit phone number 123 is accepted: there is no digit-count rule |

## Left out

- React rendering, hooks, effects, `debounce`, DOM events and styles are not modelled. The model's functions take the state values they read as parameters.
- The `fetch` calls of the page (`src/app/page.tsx:104-146`), the database client and the `pgTable` definition are I/O. The store's outcome is a parameter of `AdvocatesRoute.Get`.
- The `AdvocatesCache` type is declared but never used. No cache, `status` or `lastUpdated` field exists in the route, so none is modelled.
- AdvocatesRoute.Get: requires `page >= 1` and `pageSize >= 1` when given. `parseInt` yielding `NaN`, 0 or a negative number, and `slice` with negative indices, are not modelled.
- AdvocatesRoute.Query: `page` and `pageSize` hold already-parsed integers. `parseInt`'s reading of text such as "2abc" is not modelled.
- RateLimit.Check: identities are plain map keys. Keys that collide with JavaScript object prototype properties (such as `constructor`) are not modelled, nor is concurrency. No entry is ever evicted, as in the source.
- DirectoryPage.SortResults: the name sorts take `localeCompare` as a parameter, and only their permutation property is proved. The sort is a stable insertion sort, which under a consistent comparator gives the same order as the engine's stable sort.
- Text.Lower: lower-cases ASCII letters only, not full Unicode.
- Text.ContainsLower: holds for the ASCII `Lower` only. The engine's `toLowerCase` maps a capital sigma by its context, so "ΑΣ" lowers to "ας" while "Σ" alone lowers to "σ", and a substring's lowering need not occur in the whole's.
- DirectoryPage.SearchNarrows: rests on `Text.ContainsLower`, so it holds for ASCII lower-casing only. Under the engine's final-sigma rule a city "Ας" matches the term "ΑΣ" but not its substring "Σ".
- Text.LexLess: compares code points. The default `sort()` compares UTF-16 code units, which differ for characters above U+FFFF ("😀" sorts before "～" in the engine, after it here).
- Sorting.SortedDistinct: sorts by `Text.LexLess`, so its order is the engine's only for text without characters above U+FFFF.
- AdvocateCard.CharCodeSumAppend: strings are sequences of code points. `split("")` and `charCodeAt` see a character above U+FFFF as two UTF-16 code units, so names holding such characters get a different sum and colour bucket in the engine than here.
- AdvocateCard.Initials: takes the first code point of each name. The engine's `firstName[0]` is the first UTF-16 code unit, half a surrogate pair for a name that starts above U+FFFF.
- Text.NumberString: `toString` is modelled for integers as optional minus and digits. Exponent notation for magnitudes of 10^21 and above is not modelled.
- Schema.Validate: reports one issue per failing field. The validation library can report several issues under one field (one per bad list element, or both "not an integer" and "not positive" for -1.5); the model keeps which fields fail, in order.
- Schema.Json: numbers are exact reals. `JSON.parse` gives doubles: a literal too large for a double (such as 1e400) becomes `Infinity`, and integers above 2^53 are rounded. Neither is modelled.
- Schema.Validate: checks `int` and `positive` on exact values. The validation library sees the parsed double, so it rejects 1e400 (parsed to `Infinity`, not an integer) where the model accepts 10^400, and it judges a large integer by its rounded value.
- The handlers that reset the page on search, sort and page-size changes (`src/app/page.tsx:249-278`) only set state. They are not modelled beyond `DirectoryPage.FilterView`'s own reset.
- The mobile filter toggle, `SortDropdown`, `SearchInput`, `MobileMenu`, `SkeletonCard`, the layout and the seed route hold no logic beyond rendering and are not part of this model.
