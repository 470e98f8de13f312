# Catholic parishes site: the client-side data layer in Dafny

This project models the logic that sits under the React pages of the
Catholic parishes website. It covers:

- **The map page.** Mass, confession and adoration times arrive as `;`- or
  line-separated strings, or as ready-made arrays, and are normalised into
  lists. The day matcher understands "overnight" entries. The parish filter
  combines an event type (`any`, `mass`, `confession`, `adoration`) with a
  day selector, including `saturday-vigil`. It also chooses the popup text
  colour.
- **The parish page.** A parish is found by its canonical slug. Photos,
  times, devotions and notes are normalised, including the trailing
  `(Language)` annotation of a time. The field fallback chains, the banner
  and the "shares building with" list are modelled.
- **The search page.** One flat index is built from parishes and dioceses.
  Family and deanery entries are synthesised from parish fields, de-duplicated
  by slug, and the first record seen wins. The ranked results are split into
  four buckets, and each result gets a route and a label.
- **The diocese, deanery and family pages.** Each looks its record up by
  canonical slug and builds photo lists and banners. They pair name lists with
  slug lists under three different policies:
  - the diocese page filters names but not slugs;
  - the deanery page filters neither;
  - the family page filters both.

  They also compute counts, statistics and nationality lists.
- **The photo viewer.** It holds a photo list (or none) and a position. It is
  changed by opening, closing, stepping back and forward, and by the Escape
  and arrow keys.

Modules follow the source files:

| module | models |
|---|---|
| `MapPage` | `src/pages/Map.js` |
| `ParishDetail` | `src/pages/ParishDetail.js` |
| `Search` | `src/pages/search.js` |
| `DioceseDetail` | `src/pages/DioceseDetail.js` |
| `DeaneryDetail` | `src/pages/DeaneryDetail.js` |
| `FamilyDetail` | `src/pages/FamilyDetail.js` |
| `Lightbox` | `src/hooks/lightbox.js` |

Four shared modules support them:

- **`DetailPages`** holds the slug lookup and photo list that the three
  detail pages repeat.
- **`Slug`** holds the slug rule, written once. Four pages repeat it: lower
  case, every run outside `[a-z0-9]` becomes `-`, and one edge hyphen is
  stripped at each end.
- **`Text`** holds the JavaScript string operations used: `trim`,
  `toLowerCase`, `includes`, `split` on a character class, the
  `map(trim).filter(Boolean)` chain, and `join`.
- **`Values`** holds JavaScript's value rules: falsy values, `||`, `??`,
  `find` and `indexOf`, and records read as maps from field name to string.

## How values are modelled

- A JavaScript string is `seq<char>`. Lower-casing is ASCII only.
- A record field that the normalisers accept as a string or an array is a
  `Raw` value: `Missing`, `Str(s)` or `Arr(items)`. `null` and `undefined`
  are both `Missing`.
- Search and detail-page records are `map<string, string>`. An absent key
  stands for `undefined` or `null`.
- A template literal prints an absent value as `undefined` (and a `null` one as `null`, which the model does not separate). `Search.Interpolate`
  models this.
- The search page's results, routes and labels are modelled. The React markup
  around them is not.
- The search index builder is imperative in the source: `forEach` loops
  insert into `Map`s with has-then-set checks. It is modelled as methods with
  `while` loops. These are proved equal to the function `Search.Synth`, which
  states first-seen-wins de-duplication. The properties are then proved about
  `Synth`.
- The photo viewer is a class, `Lightbox.Viewer`. Its fields are the
  provider's state, and each of its methods is one of the provider's
  callbacks.

## Model

| member | source | states |
|---|---|---|
| MapPage.Normalize | src/pages/Map.js:446-450 | the result is always trimmed and free of empty entries; from a string it holds no `;`, line feed or backslash |
| MapPage.NormalizeJoined | src/pages/Map.js:449 | clean entries joined by `;` split back into exactly those entries, in order |
| MapPage.NormalizeArrayKeeps | src/pages/Map.js:448 | an array of clean entries is kept as it is, never re-split |
| MapPage.NormalizeIdempotent | src/pages/Map.js:446-450 | normalising the normalised list again changes nothing |
| MapPage.NormalizeAll | src/pages/Map.js:451-457 | keeps every field; the Sunday and daily lists come from `sundayMassTimes` and `dailyMassTimes` when those are truthy, and otherwise from `sunday_mass_times` and `weekdayMassTimes`; confession and adoration come from `confessionTimes` and `adorationTimes`; all four lists are clean |
| MapPage.MatchFrom | src/pages/Map.js:67 | the leftmost position where `(\w+)\s+\d{1,2}:\d{2}` matches, or none when it matches nowhere |
| MapPage.PatternChoices | src/pages/Map.js:67 | any word run followed by spaces and a clock time is a match the regular expression finds at that position |
| MapPage.StartWordIsWholeWord | src/pages/Map.js:67 | the captured word starts at a word boundary, so it is the whole word before the time |
| MapPage.WordEndBack | src/pages/Map.js:67 | a match inside a word implies a match at the earlier character, so the leftmost match begins the word |
| MapPage.DayIndex | src/pages/Map.js:59-70 | `indexOf` in the Monday-first week: the position of the day, or -1 exactly when the word is no weekday |
| MapPage.MatchesDayBasics | src/pages/Map.js:56-63 | an empty list matches nothing; an entry containing the day, in any case, makes the list match |
| MapPage.MatchesDayPlain | src/pages/Map.js:55-77 | without overnight entries, a list matches a day exactly when some entry contains it |
| MapPage.OvernightRule | src/pages/Map.js:66-73 | an overnight entry whose leftmost time follows word `w` matches the day after `w`, counted modulo 7 |
| MapPage.OvernightNextDay | src/pages/Map.js:66-73 | an overnight entry starting on weekday `i` matches weekday `i + 1`, Sunday wrapping to Monday |
| MapPage.OvernightNonWeekdayIsMonday | src/pages/Map.js:70-72 | an overnight entry whose start word is no weekday matches Monday |
| MapPage.FridayOvernightMatchesSaturday | src/pages/Map.js:55-77 | illustration of `OvernightNextDay` on one input: "Friday 9:00pm - 9:00am (Overnight)" matches Saturday, though it never names it |
| MapPage.FilterParishes | src/pages/Map.js:525-558 | a parish is kept exactly when it passes the type and day gates, and the result is an order-preserving subsequence of the input |
| MapPage.FilterAnyAny | src/pages/Map.js:525-557 | type "any" with day "any" keeps the whole list |
| MapPage.FilterTypeGate | src/pages/Map.js:528-531 | mass needs a Sunday or daily time, confession a confession time, adoration an adoration time |
| MapPage.SaturdayVigilRule | src/pages/Map.js:538-542 | the Saturday vigil selector keeps a mass parish exactly when some Sunday entry mentions Saturday |
| MapPage.MassDayRule | src/pages/Map.js:538-545 | a mass on Sunday is looked up in the Sunday list; a mass on any other day is looked up in the daily list |
| MapPage.AnyTypeDayRule | src/pages/Map.js:546-553 | with type "any", a day matches through Sunday, daily or confession entries, or through the adoration matcher |
| MapPage.PopupText | src/pages/Map.js:79-86 | black text exactly on the WHITE and ROSE backgrounds, white otherwise; the light-mode flag plays no part |
| Slug.SlugOf | src/pages/ParishDetail.js:58-60 | every canonical slug is slug-shaped: only `[a-z0-9-]`, no `--`, no hyphen at either end |
| Slug.CollapseShape | src/pages/ParishDetail.js:59 | replacing each run outside `[a-z0-9]` by one hyphen leaves no two hyphens in a row and keeps the first character's class |
| Slug.StripEdgesShaped | src/pages/ParishDetail.js:59 | stripping the edge hyphens of a collapsed string gives a slug-shaped string |
| Slug.CanonicalShaped | src/pages/ParishDetail.js:59 | a string that is already slug-shaped is its own canonical form |
| Slug.SlugOfIdempotent | src/pages/ParishDetail.js:58-60 | canonicalising a canonical slug again changes nothing |
| Slug.SlugOfTrim | src/pages/ParishDetail.js:58 | trimming before canonicalising makes no difference |
| Slug.SlugOfNeverUpper | src/pages/DioceseDetail.js:43-47 | a string with a capital letter is never a canonical slug |
| ParishDetail.SlugIndex | src/pages/ParishDetail.js:57-65 | the first record whose canonical slug equals the target, or none when no record's does |
| ParishDetail.FindParishAtOwnSlug | src/pages/ParishDetail.js:57-65 | every parish is found at its own slug unless an earlier parish has the same one |
| ParishDetail.FindParishIgnoresCase | src/pages/ParishDetail.js:61 | the address slug is lower-cased first, so its case makes no difference |
| ParishDetail.GroupEnd | src/pages/ParishDetail.js:88 | the greedy first group of `^(.*)\s*\(([^)]+)\)\s*$`: the longest one after which the rest of the pattern matches |
| ParishDetail.ParseComplete | src/pages/ParishDetail.js:88-92 | every way the string fits the pattern is found, so a language is extracted |
| ParishDetail.ParsePlain | src/pages/ParishDetail.js:88-106 | a segment not ending in `)` is kept verbatim with no language |
| ParishDetail.ParseSuffixed | src/pages/ParishDetail.js:88-92 | `text (X)`, with X non-empty and free of parentheses, gives text and language X |
| ParishDetail.ParseDisplay | src/pages/ParishDetail.js:463-486 | parsing the shown form of an entry gives the entry back |
| ParishDetail.TimesFromEntries | src/pages/ParishDetail.js:81-94 | array elements that are already entries pass through unchanged |
| ParishDetail.NormalizeTimesIdempotent | src/pages/ParishDetail.js:79-107 | normalising the normalised times again changes nothing |
| ParishDetail.NormalizeTimesDisplayed | src/pages/ParishDetail.js:96-106 | entries shown and joined by `;` come back as exactly those entries, in order |
| ParishDetail.DisplaysSplit | src/pages/ParishDetail.js:96-101 | removing backslashes, trimming, splitting, trimming and filtering the joined string gives the shown entries |
| ParishDetail.NormalizePhotos | src/pages/ParishDetail.js:68-77 | photos are trimmed and non-empty; from a string they hold no `;`, `,`, `\|`, line feed or backslash |
| ParishDetail.NormalizeList | src/pages/ParishDetail.js:109-120 | list entries are trimmed and non-empty; from a string they hold no `;`, `\|`, line feed or backslash |
| ParishDetail.NormalizePhotosJoined | src/pages/ParishDetail.js:68-77 | photos joined by `;`, `,` or `\|` split back into exactly those photos, in order, with no de-duplication |
| ParishDetail.NormalizeListJoined | src/pages/ParishDetail.js:109-120 | entries joined by `;` or `\|` split back into exactly those entries |
| ParishDetail.NormalizeArrayKeeps | src/pages/ParishDetail.js:70-112 | an array of clean strings is kept as it is by both normalisers, never re-split |
| ParishDetail.CommaSeparatesPhotos | src/pages/ParishDetail.js:74 | illustration of `NormalizePhotosJoined` on one input: a comma separates photos |
| ParishDetail.CommaKeptInLists | src/pages/ParishDetail.js:117 | illustration of `NormalizeListJoined` on one input: a comma does not separate list entries |
| ParishDetail.Pick | src/pages/ParishDetail.js:122-157 | the `a \|\| b \|\| ... \|\| ""` chain: the field of the first truthy name in the list, or `""` when none is truthy |
| ParishDetail.Normalized | src/pages/ParishDetail.js:122-157 | keeps every field of the record; photos, the five time lists, devotions and notes are each normalised from the first truthy of their alternative names, in the source's order; photos, devotions and notes are clean; with no notes field, no notes are listed |
| ParishDetail.SundayFallback | src/pages/ParishDetail.js:130-136 | with both Sunday fields falsy, the Sunday times come from `massTimes` |
| ParishDetail.Banner | src/pages/ParishDetail.js:192-193 | a banner exactly when there is a photo, and then it is the first photo, non-empty and trimmed |
| ParishDetail.Pair | src/pages/ParishDetail.js:338-365 | one link per name, in order; name `i` is linked exactly when slug `i` exists and is non-empty, and then to that slug |
| ParishDetail.SharedBuilding | src/pages/ParishDetail.js:334-368 | the section is hidden exactly when the name field is falsy, and it never fails |
| ParishDetail.SharedBuildingAgrees | src/pages/ParishDetail.js:334-368 | wherever the code as written succeeds, the corrected section is the same |
| ParishDetail.SharedBuildingNoSlug | src/pages/ParishDetail.js:341-343 | a name without a slug field makes the code as written fail; the corrected section shows the name unlinked |
| ParishDetail.SharedBuildingPairs | src/pages/ParishDetail.js:338-365 | names and slugs joined by `;` pair up by position |
| Search.ParishEntries | src/pages/search.js:50-55 | one entry per parish, in order, carrying its name, slug and city |
| Search.Synth | src/pages/search.js:58-84 | every synthesised entry has the source's kind and no city |
| Search.BuildSearchIndex | src/pages/search.js:43-92 | the loops build exactly the index the specification function describes |
| Search.CollectGroups | src/pages/search.js:57-73 | the one `forEach` fills the family and deanery maps with exactly the first-wins entries |
| Search.CollectDioceses | src/pages/search.js:76-84 | the diocese loop fills its map with exactly the first-wins entries |
| Search.SynthDistinct | src/pages/search.js:58-84 | no synthesised slug was already taken, and no two entries share a slug |
| Search.SynthFirstWins | src/pages/search.js:58-84 | each entry is made from an offering record, and no earlier offering record has the same slug: the first seen wins |
| Search.SynthComplete | src/pages/search.js:58-84 | every offering record's slug is present in the result |
| Search.SynthOrder | src/pages/search.js:86-91 | the entries keep the order of the records they came from |
| Search.SynthFirst | src/pages/search.js:58-65 | the first offering record gives the first entry |
| Search.SearchIndexParishes | src/pages/search.js:44-55 | the index is empty exactly when both inputs are empty; otherwise it starts with one entry per parish, in order |
| Search.SearchIndexOrdered | src/pages/search.js:86-91 | parishes come before families, families before deaneries, deaneries before dioceses |
| Search.SearchIndexGroups | src/pages/search.js:43-92 | the entries of each kind in the index are exactly that kind's group |
| Search.OfKind | src/pages/search.js:122-127 | an entry is in the bucket exactly when it is a result of that type; the bucket keeps the ranked order |
| Search.OfKindConcat | src/pages/search.js:122-127 | filtering by type distributes over concatenation |
| Search.PerformSearch | src/pages/search.js:113-127 | no index or an empty query gives four empty buckets; otherwise each bucket is the ranked results of its type |
| Search.OfKindPartition | src/pages/search.js:122-127 | the four bucket sizes add up to the number of results |
| Search.PerformSearchPartition | src/pages/search.js:120-127 | every ranked result is in exactly the bucket of its type, and nothing else is |
| Search.Singular | src/pages/search.js:254-263 | each bucket key maps to its type name; any other key is kept as it is |
| Search.Label | src/pages/search.js:270-274 | a parish shows "name, city", with `undefined` for an absent part; other kinds show the name |
| Search.RoutesIn | src/pages/search.js:264-267 | one route per item, in order |
| Search.RouteMatchesType | src/pages/search.js:254-267 | a result's route is `/<its own type>/<slug>` |
| Search.LinksCount | src/pages/search.js:116-127 | one link per ranked result, and none for an empty query |
| DetailPages.RowSlug | src/pages/DioceseDetail.js:43-47 | the slug derived from a record is slug-shaped |
| DetailPages.FindBySlug | src/pages/DioceseDetail.js:42-50 | none exactly when no record's derived slug equals the address slug; otherwise the first such record |
| DetailPages.FindAtOwnSlug | src/pages/DeaneryDetail.js:39-46 | every record is found at its own slug unless an earlier record derives the same one |
| DetailPages.FindBySlugUpper | src/pages/FamilyDetail.js:44-52 | the address slug is not lower-cased, so one with a capital letter finds nothing |
| DetailPages.PhotoList | src/pages/DioceseDetail.js:64-67 | photos are trimmed, non-empty and free of `;` and line feeds |
| DetailPages.PhotoBanner | src/pages/DeaneryDetail.js:66-67 | the deanery and family banner (also FamilyDetail.js:78-82): present exactly when there is a photo, and then the first photo, non-empty and trimmed |
| DetailPages.PhotoListJoined | src/pages/DeaneryDetail.js:66-67 | photos joined by `;` or a line feed come back in order, and the banner is the first |
| DetailPages.PhotoListAbsent | src/pages/FamilyDetail.js:78-82 | an absent photo field gives no photo and no banner |
| DetailPages.SlugAt | src/pages/DeaneryDetail.js:71 | a slug exactly when one exists at that position and is non-empty, and then it is that one |
| DioceseDetail.CathedralParish | src/pages/DioceseDetail.js:73-76 | nothing is found exactly when no parish's trimmed name equals the trimmed cathedral name; otherwise the first such parish is found |
| DioceseDetail.Banner | src/pages/DioceseDetail.js:70-81 | the cathedral's first photo when it is non-empty, otherwise the diocese's first photo when there is one, otherwise the cathedral value as it stands (`null`, or `""` from a blank first segment) |
| DioceseDetail.BannerSource | src/pages/DioceseDetail.js:70-81 | a diocese with photos always has a non-empty banner; a non-empty banner is its own photo or the first photo of the first parish named as its cathedral |
| DioceseDetail.CityOf | src/pages/DioceseDetail.js:89-104 | for a slug, the city of the first parish with exactly that slug when that field is truthy, and nothing when it is falsy; nothing for no slug or when no parish has the slug |
| DioceseDetail.ListFromRow | src/pages/DioceseDetail.js:85-104 | one item per non-empty name; item `i` takes slug segment `i` and that slug's city |
| DioceseDetail.ListFromRowAbsent | src/pages/DioceseDetail.js:86 | an absent names field gives an empty list |
| DioceseDetail.ListFromRowJoined | src/pages/DioceseDetail.js:85-104 | with no empty name, each name keeps the slug written beside it |
| DioceseDetail.ListFromRowSkipsEmptyName | src/pages/DioceseDetail.js:86-88 | names are filtered but slugs are not, so after an empty name a later name loses its slug |
| DeaneryDetail.PairByPosition | src/pages/DeaneryDetail.js:69-77 | one link per segment, empty ones included; link `i` has trimmed name `i` and slug segment `i` when that is non-empty |
| DeaneryDetail.PairByPositionJoined | src/pages/DeaneryDetail.js:69-77 | names and slugs joined by `;` pair up by position |
| DeaneryDetail.ParishListAbsent | src/pages/DeaneryDetail.js:69-72 | an absent list field gives exactly one link with an empty name and no slug |
| DeaneryDetail.PairByPositionKeepsEmptyName | src/pages/DeaneryDetail.js:69-72 | an empty name keeps its place, so later names keep their own slugs |
| DeaneryDetail.Nationalities | src/pages/DeaneryDetail.js:79 | nationalities are trimmed, non-empty and free of `;` and line feeds |
| DeaneryDetail.NationalitiesGuard | src/pages/DeaneryDetail.js:79 | the falsy guard gives the same result as splitting the empty string |
| DeaneryDetail.ParishCount | src/pages/DeaneryDetail.js:163 | the count given, or 0 when it is absent |
| FamilyDetail.PairFiltered | src/pages/FamilyDetail.js:85-96 | one link per non-empty name; link `i` takes non-empty slug `i`, or none past the last slug |
| FamilyDetail.PairFilteredJoined | src/pages/FamilyDetail.js:85-96 | clean names and slugs joined by `;` pair up by position |
| FamilyDetail.PairFilteredShiftsSlugs | src/pages/FamilyDetail.js:89-95 | an empty slug segment moves every later slug one name earlier |
| FamilyDetail.HeadingCount | src/pages/FamilyDetail.js:175 | the count given, or the length of the parish list when it is absent |
| FamilyDetail.MassStatistics | src/pages/FamilyDetail.js:197-200 | four labelled statistics in order, each 0 when absent |
| FamilyDetail.Nationalities | src/pages/FamilyDetail.js:220-223 | shown exactly when the field is truthy, and then trimmed, non-empty and free of `,`, `;`, `\|` and line feeds |
| FamilyDetail.NationalitiesJoined | src/pages/FamilyDetail.js:220-223 | nationalities joined by any of the four separators come back one by one, in order |
| Lightbox.JsRem | src/hooks/lightbox.js:26-32 | the remainder has the sign of the dividend, is smaller than the divisor and differs from the dividend by a multiple of it, which fixes its value |
| Lightbox.StepsStayInRange | src/hooks/lightbox.js:26-32 | from a position in the list, next and previous stay in it, wrapping at both ends |
| Lightbox.PrevUndoesNext | src/hooks/lightbox.js:26-32 | a step forward and a step back, in either order, return to the same photo |
| Lightbox.NextTimesAdd | src/hooks/lightbox.js:32 | `a` steps forward then `b` more are `a + b` steps |
| Lightbox.NextTimesClimb | src/hooks/lightbox.js:32 | short of the end, `k` steps forward move `k` places |
| Lightbox.NextAroundList | src/hooks/lightbox.js:32 | `n` steps forward go round a list of `n` photos back to the start |
| Lightbox.NextFromOutside | src/hooks/lightbox.js:13-32 | one step forward from -1 or from a position past the end lands in the list; from below -1 it lands at 0 exactly when `i + 1` is a multiple of the length, and otherwise at a negative position |
| Lightbox.Counter | src/hooks/lightbox.js:73-139 | nothing is drawn without photos (the guard at line 73); otherwise the counter reads position + 1 of the number of photos |
| Lightbox.CounterInRange | src/hooks/lightbox.js:139 | from a position in the list, the counter reads between 1 and the number of photos |
| Lightbox.Viewer.constructor | src/hooks/lightbox.js:6-8 | the viewer starts hidden at position 0 |
| Lightbox.Viewer.Open | src/hooks/lightbox.js:11-16 | an absent, non-array or empty list changes nothing; otherwise the list is shown at the given position, unchecked |
| Lightbox.Viewer.Close | src/hooks/lightbox.js:18-21 | hides the viewer and keeps the position |
| Lightbox.Viewer.ShowPrev | src/hooks/lightbox.js:23-27 | nothing while hidden; otherwise one photo back, wrapping |
| Lightbox.Viewer.ShowNext | src/hooks/lightbox.js:29-33 | nothing while hidden; otherwise one photo forward, wrapping |
| Lightbox.Viewer.OnKey | src/hooks/lightbox.js:36-47 | Escape closes, ArrowLeft steps back, ArrowRight steps forward; any other key, or any key while hidden, changes nothing |

## Left out

- Fuse.js ranking is a foreign library with floating-point scores. It is a parameter, `rank`, of `Search.PerformSearch`. Only the empty-query rule and the split into buckets are modelled.
- The 200 ms debounce of the search, its cancellation and other timers are left out: they concern timing only.
- The `fetch` calls, the `alive`/`mounted` flags, `sessionStorage`, geolocation, media-query listeners and DOM changes are left out: they are input and output. Each page's model starts from the records already fetched.
- The loading and not-found renders of the detail pages are left out. The diocese, deanery and family functions take the record that the lookup found.
- Leaflet rendering, marker clustering and the map's centre and zoom parsing are left out: they are UI and library code.
- The React markup, SEO tags, JSON-LD and date display are left out. The exceptions are the parts that carry data logic: the counter, routes and labels, the banner and the list pairings.
- The liturgical theme hooks, the colour and icon tables, and the decorative and static pages are left out.
- Lower-casing is ASCII only. Characters beyond ASCII keep their case here, while JavaScript's `toLowerCase` maps them too.
- Strings are sequences of code points. JavaScript strings are UTF-16 code units, which makes no difference to splitting, trimming or comparing the ASCII separators involved.
- `null` and `undefined` are one value, `Missing`. `||` and `??` treat them alike wherever they are used. Two places in the search index tell them apart and are not modelled: a JavaScript `Map` treats a `null` slug and an `undefined` slug as different keys, so the index may hold one family, deanery or diocese entry for each (search.js:58-84); and a template literal prints `null` as `null`, where the model prints `undefined` for both (search.js:272).
- Records on the search and detail pages are maps from names to strings. A numeric count field (`numParishesInDeanery`, `numParishesInFamily`, the mass statistics) is a separate `Option<int>` argument.
- Map.js: a non-string element of an array field is left out, because `s.trim()` would throw on it. Array fields are arrays of strings here.
- ParishDetail.js: a non-string array element is modelled for times, which pass it through, and for photos and lists, which `String`-coerce it.
- A fetched list that is not an array is handled page by page, and the model starts from an array on every page:
  - Map.js:445 replaces it with `[]`.
  - search.js:32 and search.js:36 store it unchecked with `setDioceses` and `setParishes`.
  - DioceseDetail.js:42, DeaneryDetail.js:39 and FamilyDetail.js:44 call `list.find` on it, which throws inside the `try`; the page then shows not-found. The diocese page stores the parish list unchecked first (DioceseDetail.js:40).
  - ParishDetail.js:52-54 sets the parish to `null`, so the page shows not-found.
- Lightbox.Viewer: does not model the `document.body.style.overflow` change, the `stopPropagation` calls on the buttons, or the listener's installation and removal. The key handler is modelled as acting only while photos are shown, which is when the listener is installed.

## Findings

| source | as written | input that shows it | evidently intended | confidence | as-written member | corrected member |
|---|---|---|---|---|---|---|
| src/pages/ParishDetail.js:341-343 | `parish.shareBuildingSlug.split(";")` is called whenever `shareBuildingName` is truthy, with no fallback for a missing slug field | a parish with `shareBuildingName: "St Mary"` and no `shareBuildingSlug`: the render throws instead of showing the name | read a missing slug field as no slugs, as the other detail pages do with `String(x \|\| "")`, and show the names unlinked | not executed | ParishDetail.SharedBuildingNoSlug | ParishDetail.SharedBuilding |
