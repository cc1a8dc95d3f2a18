# Résumé site scripts — a Dafny model

This project models the pure logic of four browser scripts from a personal
résumé site. The site loads one JSON document that holds two collections of
event records: `experiences` (jobs) and `formations` (education). The model
covers:

- the **timeline** (`js/timeline.js`): both collections merged into one
  list and stably sorted by start date, most recent first. Each entry links
  to its detail page and carries a date label.
- the **home page** (`js/main.js`): the most recent record of each
  collection, selected by effective end date. A running record counts as
  ending `now`. The page shows a summary card, or a fixed message when the
  collection is empty.
- the **title checklist** (`js/recherche.js`): the `type` URL parameter
  picks a collection. The page lists its distinct titles in code-unit order
  and draws one checkbox per title. Each checkbox id is built from the
  `cleanId` slug.
- the **formation detail list** (`js/formations_only.js`): every formation
  as a detail card, sorted by end date, most recent first.

Records are immutable datatypes (`Records.Record`). A date is an integer
time value at the resolution of the clock, the milliseconds of a JavaScript
`Date`. The text for a date is a parameter `fmt: int -> string` that stands
for `toLocaleDateString('fr-FR', …)`. The clock is a parameter `now` of the
same kind.
The result of fetching and parsing the data file is a parameter `Load`.
Each card is a datatype holding the fields the script chooses, not an HTML
string.

The three date sorts (`js/timeline.js:90`, `js/main.js:43-47` and
`js/formations_only.js:14`) are `Array.prototype.sort` with a subtracting
comparator. ECMA-262 requires that sort to be stable (section 23.1.3.30,
2023 edition). `Sorting.SortDesc` models it as a stable insertion sort on
an integer key. Its contract characterises it completely: the result is
sorted, it is a permutation of the input, and records with equal keys keep
their input order. `Sorting.StableSortUnique` shows that these three
properties determine the result. The title sort of `js/recherche.js:43` has
no comparator, so it uses the default string order. It is modelled
separately by `Checklist.SortTitles` over `StringOrder.Less`. Every operation is a pure function of
values, so the input collections can never be reordered. That is what the
spread copies in `js/timeline.js:87` and `js/main.js:43` ensure.

Some behaviours of the code that a reader might not expect, all modelled
as the code has them:

- A record whose `end_date` is the literal 'Présent' gets a card period
  ending in "Invalid Date" (`js/main.js:55`, `js/formations_only.js:30`).
  `Home.DisplayItem` and `FormationList.DisplayItem` build that period as
  written. The intended card is kept beside it as `Home.CorrectedDisplayItem`
  (see Findings).

- An empty formation list renders no cards and no message (`js/formations_only.js:24-56`).
- A formation whose end date is missing or 'Présent' makes the comparator
  of `js/formations_only.js:14` return NaN, which `Array.prototype.sort`
  reads as a tie (CompareArrayElements, section 23.1.3.30.2 of ECMA-262,
  2023 edition). Such a record keeps its input place when the list holds
  at most one distinct date. In a list that also holds
  two distinct dates the comparator is inconsistent, and the order is
  implementation-defined.
- The timeline shows a record with no end date by its start date alone. It
  does not add an "ongoing" marker (`js/timeline.js:39-43`).
- Any `type` other than `'experience'` counts as a formation, including a
  missing `type`. On the timeline, though, an empty `type` or one holding
  whitespace makes `classList.add` (`js/timeline.js:28`) throw. The entries
  before that record stay, and it and every later record are not rendered.
- The title checklist has no submission step (`js/recherche.js:80`).

## Model

| member | source | states |
|---|---|---|
| Sorting.SortDesc | js/timeline.js:90 | The stable sort behind the three date sorts (also js/main.js:43-47 and js/formations_only.js:14): the result is non-increasing in the key, a permutation of the input, and lists the elements of each key in input order. |
| Sorting.InsertWithKey | js/timeline.js:90 | Inserting an element puts it in front of the elements that share its key, so the sort is stable. |
| Sorting.InsertKeepsSorted | js/timeline.js:90 | Inserting into a descending list keeps it descending. |
| Sorting.StableSortUnique | js/timeline.js:90 | Two descending sequences that list every key's elements in the same order are equal, so the stable sort of a sequence is unique. |
| Sorting.SortDescIsTheStableSort | js/timeline.js:90 | Any stable descending arrangement of the input is the one `SortDesc` computes. |
| Sorting.SortDescIdempotent | js/formations_only.js:14 | Sorting an already sorted list leaves it unchanged. |
| Sorting.SortDescHeadIsFirstMax | js/main.js:43-47 | The head of the sorted copy is the first input element of maximal key: no element has a greater key and every earlier element has a smaller one. |
| Sorting.WithKeyConcat | js/timeline.js:87 | Taking the elements of one key commutes with concatenation. |
| Timeline.Merge | js/timeline.js:87-90 | The timeline has exactly the records of both collections, counted with multiplicity. It is non-increasing in start date. On each start date it lists that date's experiences in order, then that date's formations in order. |
| Timeline.ExperienceBeforeFormationOnTie | js/timeline.js:87-90 | An experience and a formation with the same start date appear with the experience first. |
| Timeline.Href | js/timeline.js:20 | The link is 'experiences.html' exactly when the type is 'experience', and 'formations.html' for every other or missing type. |
| Timeline.DateLabel | js/timeline.js:34-43 | The label always begins with the formatted start. With no end date it is the start alone. With an end date it continues with " - " and the formatted end, which is "Invalid Date" for the literal 'Présent'. |
| Timeline.DateLabelAgreesWithPeriod | js/timeline.js:39-43 | A dated record's label is the period its cards show. An open-ended record's label lacks the " - Présent" that the cards add. |
| Timeline.CreateItem | js/timeline.js:18-80 | An entry carries the record's title and links to 'experiences.html' exactly for an experience. Its label is the start alone for a missing end date, the card period for a dated record, and the as-written period, ending "Invalid Date", for the literal 'Présent'. |
| Timeline.RenderedCount | js/timeline.js:95-98 | The loop appends entries while each record's type is a valid class token, and stops at the first record whose type `classList.add` rejects. |
| Timeline.RenderTimeline | js/timeline.js:83-99 | Nothing is rendered when loading fails or a collection is missing. Otherwise the entries follow the merged order, each with its record's title, link and label. They run up to the first record whose type is empty or holds whitespace, where `classList.add` throws. |
| Timeline.AllRenderedIffAllTypesAreTokens | js/timeline.js:28 | Every record of both collections gets an entry exactly when every type is a valid class token. A missing type counts as the token "undefined". |
| Home.EffectiveEnd | js/main.js:44-45 | A missing end date or the literal 'Présent' counts as `now`. A date counts as itself. |
| Home.FindLatest | js/main.js:38-48 | Returns None exactly for a missing or empty list. Otherwise it returns an element of the input whose effective end date is at least that of every input record. |
| Home.FindLatestIsFirstMaximum | js/main.js:43-47 | Among records sharing the greatest effective end date, the first in input order is returned. |
| Home.FirstLatestUnique | js/main.js:43-47 | The first record of greatest effective end date is unique. |
| Home.ScanLatest | js/main.js:38-48 | A one-pass scan that keeps the first strict maximum returns the same record as the sort-based selection. |
| Home.FutureDateBeatsOpenEnded | js/main.js:44-46 | A record dated after `now` beats every running record: the selected record is dated, no earlier than it. |
| Home.OpenEndedBeatsPastDates | js/main.js:44-46 | When every dated record ended before `now`, the first running record is selected. |
| Home.DisplayItem | js/main.js:51-78 | The home card shows the period as the code writes it: 'Présent' for a missing end date, "Invalid Date" for the literal 'Présent'. It shows a contract line only for experiences, defaulting to 'Non spécifié'. The entity is the company for experiences and the school otherwise. The location line appears only for a non-empty location. Skills appear in source order. |
| Home.CorrectedDisplayItem | js/main.js:44-56 | The intended card: the same fields as the home card, with the corrected period. It differs from the card as written only for the literal 'Présent'. |
| Home.CardShowsOngoingIffRunning | js/main.js:44-56 | The corrected card reads 'Présent' for exactly the records that the selection treats as ending `now`. Every other record shows the end date the selection compared. |
| Home.LatestPresentCardShowsInvalidDate | js/main.js:43-56 | A running experience stored with 'Présent' beats one that ended before `now`. The home page then shows it as "… - Invalid Date", while the corrected card shows "… - Présent". |
| Home.ShowLatest | js/main.js:15-28 | A missing or empty collection yields its fixed "Aucune … disponible" message. Otherwise the section shows the card of the record that `findLatestItem` selects. |
| Home.LoadHome | js/main.js:6-35 | A failed load shows "Impossible de charger les données." in both sections. Otherwise each section is decided by its own collection. |
| Home.SectionsIndependent | js/main.js:15-28 | Each section shows its message exactly when its own collection is empty. A non-empty collection shows the card of its own latest record, whatever the other collection holds. |
| Slug.LowerChar | js/recherche.js:64 | `toLowerCase` on one character: an ASCII capital becomes its small letter, and every other character is unchanged. |
| Slug.Lower | js/recherche.js:64 | `toLowerCase` on a string: same length, each character lowered in place. |
| Slug.Collapse | js/recherche.js:64 | The global replacement of `[^a-z0-9]+` by '-' yields only characters of `[a-z0-9-]`, never two '-' in a row, and the same alphanumerics in the same order. |
| Slug.CleanId | js/recherche.js:64 | `cleanId` is built only from `[a-z0-9-]` and never has two consecutive '-'. It keeps the alphanumerics of the lowered input, is no longer than its input, and is empty only for an empty input. |
| Slug.CollapseSeparatorRun | js/recherche.js:64 | A non-empty run of characters outside `[a-z0-9]` becomes a single '-'. |
| Slug.CollapseConcat | js/recherche.js:64 | Cutting the input next to an alphanumeric character cuts the replacement at the same place, so each run is replaced where it stands. |
| Slug.CleanIdJoinsWords | js/recherche.js:64 | Two words joined by any non-empty run of separators get ids joined by exactly one '-'. |
| Slug.CleanIdKeepsAsciiAlnums | js/recherche.js:64 | The alphanumerics of `cleanId` are the ASCII letters and digits of the input, in order, with letters lowercased. |
| Slug.CleanIdFixesExactlySlugs | js/recherche.js:64 | `cleanId` leaves a string unchanged exactly when it is already a slug. |
| Slug.CleanIdIdempotent | js/recherche.js:64 | `cleanId(cleanId(s)) == cleanId(s)`. |
| Slug.CleanIdNotInjective | js/recherche.js:64 | "C++" and "C#" get the same id "c-", so checkbox ids need not be distinct. |
| Checklist.Dedup | js/recherche.js:43 | The Set copy has no duplicates and holds exactly the titles of its input. |
| StringOrder.Less | js/recherche.js:43 | The default order of `.sort()`: strings compared code unit by code unit, a proper prefix first. |
| StringOrder.LessIrreflexive | js/recherche.js:43 | No string sorts before itself. |
| StringOrder.LessAsymmetric | js/recherche.js:43 | Two strings never sort before each other. |
| StringOrder.LessTransitive | js/recherche.js:43 | The order is transitive. |
| StringOrder.LessTotal | js/recherche.js:43 | Any two different strings are ordered one way or the other, so the order is a strict total order. |
| Checklist.SortTitles | js/recherche.js:43 | Sorting distinct titles gives a strictly ascending list of the same titles. |
| Checklist.UniqueTitles | js/recherche.js:43 | `uniqueTitles` is strictly ascending in code-unit order, so it is sorted and has no duplicates. It holds exactly the input titles and is no longer than the input. |
| Checklist.AscendingUnique | js/recherche.js:43 | Two strictly ascending lists of the same titles are equal. |
| Checklist.UniqueTitlesCharacterised | js/recherche.js:43 | Any strictly ascending list of exactly the input titles is `uniqueTitles`. |
| Checklist.DisplayCheckboxes | js/recherche.js:55-82 | An empty list yields the "Aucun(e) … disponible" message. Otherwise there is one checkbox per title, in the same order, with value and label set to the title, id set to type + '-' + cleanId(title), and name set to type + '[]'. |
| Checklist.CheckboxIdsAreSlugs | js/recherche.js:64-68 | Every checkbox id is the type, a '-', and a slug. |
| Checklist.FetchUniqueTitles | js/recherche.js:11-52 | A failed load, or a missing collection, shows the fixed failure message and sets no heading. 'metier' uses experience titles and 'diplome' uses formation titles. Any other or absent type shows "Recherche par …" and the invalid-criterion message, with no checkboxes. |
| Checklist.ChecklistListsEachTitleOnce | js/recherche.js:22-73 | For 'metier' and 'diplome', checkboxes appear exactly when the collection is non-empty. Their values are strictly ascending and are exactly the titles of the collection. |
| Records.Titles | js/recherche.js:24-29 | The mapped title list has one title per record, the record's own, in collection order. |
| Checklist.TitlesOfferedAreRecordTitles | js/recherche.js:24-29 | A title is in the mapped title list exactly when some record of the collection has it. |
| FormationList.SortByEnd | js/formations_only.js:14 | The dated formations come out non-increasing in end date, as a permutation of the input. Records with the same end date keep their input order. |
| FormationList.DisplayItem | js/formations_only.js:26-50 | The class is 'experience-detail' exactly for experiences, 'formation-detail' otherwise. The period is the one the code writes, "Invalid Date" for the literal 'Présent' included. Experiences show the contract (default 'Non Spécifié') then the location; others show the school then the location. The entity line is the company for experiences and the school otherwise. There is one skill tag per skill, in order. |
| FormationList.DisplayItems | js/formations_only.js:24-25 | There is one card per record, in the order given. |
| FormationList.LoadDetails | js/formations_only.js:4-22 | A failed load or a missing collection shows the fixed error message. Otherwise the cards of the formations sorted by end date are shown. |
| FormationList.OneCardPerFormationInEndOrder | js/formations_only.js:14-16 | There is exactly one card per formation. The cards follow a permutation of the formations that is non-increasing in end date. |
| FormationList.DetailAndHomeCardsAgree | js/formations_only.js:29-45 | The detail card and the home card (js/main.js:54-61) agree on the title, the period and the entity. They agree on a given contract type, but spell the missing-contract placeholder differently: 'Non Spécifié' against 'Non spécifié'. |
| FormationList.PeriodsCoincideOnDatedLists | js/formations_only.js:29-31 | On lists whose formations all carry a date, every card's period as written is also the corrected one. |
| FormationList.PresentFormationShowsInvalidDate | js/formations_only.js:29-31 | A lone formation ending 'Présent' gets a detail card ending "… - Invalid Date", where the corrected period ends "… - Présent". |
| Dates.PeriodAsWritten | js/main.js:54-56 | The period as written: the formatted start, " - ", then 'Présent' for a missing end date, "Invalid Date" for the literal 'Présent', and the formatted date otherwise. |
| Dates.Period | js/main.js:54-56 | Corrected period: formatted start, " - ", then the formatted end for a dated record and 'Présent' for every open-ended one, including the literal 'Présent'. |
| Dates.PeriodAsWrittenDiffersOnlyOnPresent | js/main.js:54-56 | The source's period and the corrected one differ exactly for records whose end date is the literal 'Présent'. |
| Dates.PresentLiteralShowsInvalidDate | js/main.js:55 | A record ending 'Présent' gets "… - Invalid Date" as written, and "… - Présent" once corrected. |

## Left out

- Fetching, JSON parsing, `DOMContentLoaded`, `innerHTML`, `insertAdjacentHTML` and `console` output are left out. The parsed document, or the failure to load it, is the parameter `Load`.
- HTML markup, escaping, template whitespace and CSS class lists are left out. This includes the class that `classList.add(item.type)` adds in `js/timeline.js:28` and `:55`, though not the exception it raises, and the static label texts "Contrat :" and "Type de Contrat :". Cards are datatypes of the fields each script chooses.
- `toLocaleDateString('fr-FR', …)` is left out because it depends on locale data. It is the parameter `fmt`. An invalid date is spelled "Invalid Date", as the method does for a NaN time value.
- `new Date(string)` parsing is left out. Dates are time values. An `end_date` is missing, the literal 'Présent', or a valid date; other unparsable strings are not modelled.
- The fresh `new Date()` built inside every comparator call of `js/main.js:44-45` is left out. One `now` is fixed for the whole selection. A record dated exactly at that millisecond ties with a running record, and input order decides.
- Home.CardShowsOngoingIffRunning is stated of the corrected card. The card as written (`Home.DisplayItem`) reads "Invalid Date" for a running record stored with 'Présent', as `Home.LatestPresentCardShowsInvalidDate` shows.
- FormationList.LoadDetails requires every formation to carry a date. With a missing or 'Présent' end date the comparator of `js/formations_only.js:14` returns NaN, which the sort reads as a tie. Lists where that stays consistent keep such a record in its input place, but the model does not cover them. These lists are a single formation, lists with no dated formation, and lists with one distinct date. Lists that also hold two distinct dates sort in an implementation-defined order.
- FormationList.PeriodsCoincideOnDatedLists covers only lists where every formation is dated. A 'Présent' formation that the page shows, such as a lone one, still reads "Invalid Date", as `FormationList.PresentFormationShowsInvalidDate` shows.
- Case folding covers ASCII only: every non-ASCII character counts as a separator in `cleanId`. In JavaScript a few non-ASCII characters, such as U+212A KELVIN SIGN and U+0130, lowercase to ASCII letters and would be kept.
- A `char` stands for one UTF-16 code unit in the title order. Dafny characters are Unicode scalar values, so a lone surrogate cannot be written. Characters outside the Basic Multilingual Plane therefore compare by code point. That differs from the code-unit order only against U+E000–U+FFFF.
- `skills` is a required sequence. The missing-skills branch of `js/main.js:63` and the `TypeError` it would raise in `js/formations_only.js:50` are not modelled.
- A DOM failure inside the `try` block is not modelled. An example is a missing container, which `js/main.js:30-34` would catch like a load failure.
- Submitting the checklist is left out: the button in `js/recherche.js:80` is a placeholder with no behaviour. Free-text search and the skill-category drill-down are not part of these scripts.
- No contract says the input collections are unchanged. A value model cannot reorder its inputs, so the spread copies of `js/timeline.js:87` and `js/main.js:43` hold by construction. `js/formations_only.js:14` sorts `data.formations` in place, but nothing reads that array again.

## Findings

| source | as written | input that shows it | evidently intended | confidence | as-written member | corrected member |
|---|---|---|---|---|---|---|
| js/main.js:55-56 | Any truthy `end_date` is formatted as a date, so the literal 'Présent' becomes "Invalid Date". The same line appears in js/formations_only.js:30. | A record with `end_date: 'Présent'` gets the period "<start> - Invalid Date". | 'Présent' is shown as 'Présent'. `findLatestItem` (js/main.js:44-45) treats 'Présent' as a running record, and a missing end date already shows 'Présent'. | medium; not executed | Home.LatestPresentCardShowsInvalidDate | Home.CorrectedDisplayItem |
