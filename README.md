# Mubawab listing scraper and repair scripts, modelled in Dafny

This project models the core of a scraper for rental listings on mubawab.ma,
together with the two scripts that repair its database.

- `scraper.py` walks the paginated search results newest first (`get_links`). It stops at the
  listing it saw on the previous run, called the watermark here.
- For each link, `get_details` fetches the page and saves it in `raw_listings`. It then parses
  the page into a `PropertyDetails` record (`parse_property_page` and the cleaners) and upserts
  the record into `normalised_listings`.
- `repair_normalised_from_raw.py` loads every raw row in batches of 200. It wipes the source's
  normalised rows and replays the stored pages through the parser, counting successes, failures
  and rejected pages.
- `repair_missing_normalised.py` finds the ids that have a raw row but no normalised row. For
  each one it rebuilds the normalised row from the stored page and fills in placeholder image rows.

The files:

- `wrappers.dfy` (module `Wrappers`): `Option` (Python `None`), `Result` (an exception), Python truthiness of an optional string
- `text.dfy` (module `Text`): character classes, `str.strip`, `str.split`, `re.sub(r'[^\d]', '')`, `int(...)`/`str(...)`, Python string order
- `identity.dfy` (module `Identity`): `get_mubawab_external_id` and the regular expression behind it
- `cleaners.dfy` (module `Cleaners`): `clean_integer`, `clean_text`, `clean_att`, `clean_age`, `clean_rooms`, `clean_condition`, `parse_area_and_city`
- `page_parser.dfy` (module `PageParser`): the parsed document, `PropertyDetails`, `extract_coordinates`, `parse_property_page`
- `store.dfy` (module `Store`): the three tables, the `save_raw_listing` and `upsert_normalised_listing` writes, and a `Database` class whose methods update the tables in place
- `link_discovery.dfy` (module `LinkDiscovery`): `get_links`
- `orchestrator.dfy` (module `Orchestrator`): `get_details`
- `repair_from_raw.dfy` (module `RepairFromRaw`): `fetch_all_raw_listings`, `rebuild_normalised_from_raw`
- `repair_missing.dfy` (module `RepairMissing`): `get_missing_normalised_ids`, `repair_single_listing`, `repair_listing_images`, `main`

Modelling choices:

- **What the HTML parser sees.** A fetched page is a `Doc` value. It holds what BeautifulSoup would
  find:
  - the three anchor tags and their texts;
  - the `wordBreak` description;
  - the paragraphs;
  - the label/value feature entries;
  - the detail blocks;
  - the feature captions;
  - the coordinates the page encodes.

  Turning HTML into a `Doc` (`soup`) is a parameter. So are the network (`fetchPage`, `visitAt`)
  and the store's answers (`accepted`, `fails`).
- **Regular expressions** become deterministic scans, each argued in its doc comment and specified by
  "leftmost match" or "greedy split" contracts:
  - `/(a|pa)/(\d+)`;
  - `(\d+)\s*(?:\w+\s)?rooms?\b`;
  - `^(.*)\s+in\s+(.*)$`;
  - `\d+`.
- **Exceptions** become `Result.Failure` wherever they change the outcome.
- **State-changing code** is imperative Dafny: the `Database` class, and the loops of `get_links`,
  `get_details`, the batch loader, the replay and the repair loops. Each method is proved equal
  to a recursive specification function, and the lemmas state the properties of that function.

## Model

| member | source | states |
|---|---|---|
| `Text.Strip` | scraper.py:270 | `str.strip()`: the result is a slice of the input with only whitespace outside it, and it neither starts nor ends with whitespace |
| `Text.Words` | scraper.py:273 | `str.split()`: every word is non-empty and free of whitespace |
| `Text.WordsOfJoin` | scraper.py:273 | splitting a single-space join of words gives the words back |
| `Text.JoinWordsSingleSpaced` | scraper.py:273 | a single-space join of words is single-spaced |
| `Text.Digits` | scraper.py:263 | `re.sub(r'[^\d]', '', s)` keeps only digits and never lengthens its input |
| `Text.DigitsOfDigits` | scraper.py:263 | a digit string is left unchanged |
| `Text.DigitsEmpty` | scraper.py:263-264 | nothing is left exactly when the input has no digit |
| `Text.NatToString` | scraper.py:288 | `str(n)`: a non-empty digit string with no leading zero |
| `Text.ValueOfNatToString` | scraper.py:264 | `int(str(n)) == n`, reading digits with `Value` |
| `Text.BelowIrreflexive` | repair_missing_normalised.py:68 | Python string order (`Below`) is irreflexive |
| `Text.BelowTransitive` | repair_missing_normalised.py:68 | Python string order is transitive |
| `Text.BelowTotal` | repair_missing_normalised.py:68 | any two different strings are ordered one way |
| `Text.BelowAsymmetric` | repair_missing_normalised.py:68 | Python string order is asymmetric |
| `Identity.GetMubawabExternalId` | scraper.py:76-88 | an id exists exactly when some position matches `/a/` or `/pa/` followed by digits; the id is the leftmost match's kind followed by its whole digit run |
| `Identity.MatchAt` | scraper.py:83 | a match at a position exists exactly when `/a/<digit>` or `/pa/<digit>` starts there, and its id is a kind followed by a digit run |
| `Identity.NumberAt` | scraper.py:83 | the greedy `\d+` from a digit is a non-empty digit string |
| `Identity.FirstMatchFrom` | scraper.py:83 | the first match from a position on is a well-formed id |
| `Identity.FirstMatchIsLeftmost` | scraper.py:83 | the first match found is at the leftmost matching position, and no match means no position matches |
| `Identity.CanonicalPath` | scraper.py:76-88 | a URL whose first match is `/<kind>/<digits>` followed by a non-digit yields exactly `<kind><digits>` |
| `Identity.StableUnderSuffix` | scraper.py:83-88 | appending text that does not start with a digit (a query string, a slug) never changes the id |
| `Cleaners.CleanInteger` | scraper.py:248-267 | None exactly for a missing or empty input or one without any digit; otherwise the value of all its digits read together |
| `Cleaners.CleanIntegerRoundTrip` | scraper.py:262-264 | cleaning the decimal rendering of n gives n back |
| `Cleaners.CleanIntegerIgnoresDecoration` | scraper.py:262-264 | digit-free text around a number (currency, spaces, units) does not change the result |
| `Cleaners.DigitsOfConcat` | scraper.py:263 | removing the non-digits of a concatenation is the concatenation of the removals |
| `Cleaners.CleanText` | scraper.py:269-270 | None exactly for a missing or empty text. Otherwise the result is a slice of the text with only whitespace cut from either end, so the whitespace inside is kept as it is; it has no surrounding whitespace and the same words |
| `Cleaners.StripKeepsWords` | scraper.py:270 | stripping keeps the whitespace-separated words |
| `Cleaners.CleanAtt` | scraper.py:272-273 | the result has the input's words, no surrounding whitespace, and is single-spaced: every whitespace character in it is a plain space between two non-whitespace characters |
| `Cleaners.CleanAttIdempotent` | scraper.py:272-273 | cleaning twice is cleaning once |
| `Cleaners.CleanAge` | scraper.py:275-289 | a result exists exactly when the text mentions "years" (any case) and has exactly two digit runs; it is exactly `"<lo>-<hi>"`: the two numbers rendered in decimal without leading zeros, joined by "-" |
| `Cleaners.AgeRangeReadsBack` | scraper.py:286-288 | the digit runs of "lo-hi" are lo and hi |
| `Cleaners.FirstRoomsMatch` | scraper.py:293-296 | the match found is the leftmost position where `(\d+)\s*(?:\w+\s)?rooms?\b` matches, and none means none matches |
| `Cleaners.NoMatchAtExtends` | scraper.py:295 | a position that does not match extends "no match before the leftmost one" by one position |
| `Cleaners.CleanRooms` | scraper.py:291-298 | None exactly when there is no description or no position matches; otherwise the number at the leftmost match |
| `Cleaners.NoRoomWordNoRooms` | scraper.py:291-298 | a description without "room" (any case) gives no room count |
| `Cleaners.NoRoomWordNoMatchAt` | scraper.py:294-295 | without "room" no position matches |
| `Cleaners.MatchContainsRoom` | scraper.py:294-295 | a match contains "room" in some case |
| `Cleaners.RoomWordContains` | scraper.py:294 | `rooms?` at a position puts "room" in the lowered text |
| `Cleaners.CleanCondition` | scraper.py:300-316 | "Good condition" gives "Good", "New" gives "New", "Due for reform" comes back unchanged, and anything else gives None |
| `Cleaners.DueForReformEscapesConditionSet` | scraper.py:309-310 | as written, "Due for reform" is returned as is, outside the set {"Good", "Old", "New"} |
| `Cleaners.CleanConditionIntended` | scraper.py:300-316 | with line 309 assigning: every result is in {"Good", "Old", "New"}, "Old" exactly for "Due for reform", and otherwise the same result as written |
| `Cleaners.LastSplitBelow` | scraper.py:325-326 | the greedy `(.*)` takes the largest split point: it is a split point and none above it is |
| `Cleaners.ParseAreaAndCity` | scraper.py:318-335 | (None, None) exactly for a missing or empty text. Otherwise the city is present. With no "in" separator the area is None and the city is the stripped text. With one or more, the split is at the last separator, as the greedy `(.*)` takes it: no split point lies after it. The area is group 1 stripped and the city is group 2 stripped. |
| `Cleaners.NoSplitAnywhere` | scraper.py:325-333 | no largest split point means no split point at all |
| `Cleaners.PiecesAt` | scraper.py:329-331 | groups 1 and 2 at a split point, each stripped, are the text up to the split and the text after "in" and its whitespace, and they form a valid area/city split of the text |
| `Cleaners.AreaAndCityExample` | scraper.py:318-335 | "Maarif in Casablanca" gives ("Maarif", "Casablanca") |
| `PageParser.FirstLongParagraphExists` | scraper.py:384-388 | the fallback description exists exactly when some paragraph's stripped text is longer than 50 characters |
| `PageParser.FirstLongParagraphIsFirst` | scraper.py:384-388 | the fallback description is the first such paragraph's spaced text, stripped |
| `PageParser.LabelMapKeys` | scraper.py:390-401 | a label is a key exactly when some entry with both tags cleans to it |
| `PageParser.StoredPairsKeys` | scraper.py:390-401 | the same, for any label cleaner |
| `PageParser.LabelMapLastWins` | scraper.py:401 | when a label repeats, the last entry's value is kept |
| `PageParser.StoredPairsLastWins` | scraper.py:394-401 | the same, for any label cleaner |
| `PageParser.ScanFieldLastWins` | scraper.py:417-432 | a field takes the span of the last detail block that sets it |
| `PageParser.ScanFieldUnset` | scraper.py:411-432 | a field no block sets stays None |
| `PageParser.HitsShortToken` | scraper.py:425-432 | each `'Xs' in text or 'X' in text` test is the same as `'X' in text` |
| `PageParser.KeptCaptions` | scraper.py:438-440 | the kept captions are non-empty and start with a non-space |
| `PageParser.KeptCaptionsAppend` | scraper.py:439-440 | the captions are filtered one by one and kept in order: the kept captions of two lists are those of each, concatenated |
| `PageParser.KeptCaptionsSingle` | scraper.py:439-440 | one caption is kept, stripped, exactly when its stripped text is not empty |
| `PageParser.FeatureStringNone` | scraper.py:437-440 | features (`FeatureString`) is None exactly when the page has no caption tag |
| `PageParser.BlankCaptionsGiveEmptyFeatures` | scraper.py:439-440 | captions that are all whitespace give features "" rather than None |
| `PageParser.BlankCaptionsKeptNone` | scraper.py:439-440 | `filter(None, ...)` drops every blank caption |
| `PageParser.ExtractCoordinates` | scraper.py:337-338 | as written, `extract_coordinates` always raises |
| `PageParser.FindDescription` | scraper.py:379-388 | the description loop computes `TextContent`: the `wordBreak` text, else the first long paragraph (`FirstLongParagraph`) |
| `PageParser.CollectLabels` | scraper.py:390-401 | the label loop builds exactly the label-to-value map `LabelMap` |
| `PageParser.ScanDetails` | scraper.py:411-432 | the detail loop sets size, rooms, bedrooms and bathrooms to the scans `ScanField` of each field |
| `PageParser.ParseWith` | scraper.py:359-466 | the parse steps give the outcome `Parse`: no listing without the three anchors; an exception when coordinate extraction raises; otherwise the record `Assemble` builds |
| `PageParser.ParsePropertyPage` | scraper.py:359-442 | as written: None exactly without the three anchors, and an exception exactly with them |
| `PageParser.ParsePropertyPageCorrected` | scraper.py:337-466 | with coordinates repaired (`ExtractCoordinatesIntended`): a record exactly when the anchors are present, assembled with the page's coordinates |
| `PageParser.ParseKeepsLink` | scraper.py:464 | a record carries the link it was parsed from, and "not a listing" means the anchors are missing |
| `PageParser.NumberOfFloorsAlwaysNone` | scraper.py:409-461 | `number_of_floors` is None in every record, because line 461 cleans an int a second time (`CleanIntegerOfInt`) |
| `PageParser.RoomsFallback` | scraper.py:425-435 | rooms (`RoomsValue`) come from the detail blocks when one sets them; otherwise from a non-empty description; otherwise None |
| `PageParser.ConditionIsRawLabel` | scraper.py:404 | the condition is stored as the raw label value ("Good condition"), not cleaned |
| `Store.SaveRaw` | scraper.py:91-117 | no id or a refused write leaves the table unchanged. Otherwise only the row under the link's id changes, and it holds the source, the link and the page. |
| `Store.UpsertNormalised` | scraper.py:119-170 | keyed on the id of the record's url; only that row changes; it holds the record, source and listing type and keeps an existing main image path |
| `Store.UpsertNormalisedIdempotent` | scraper.py:159-162 | upserting the same record twice equals upserting it once |
| `Store.WithoutSource` | repair_normalised_from_raw.py:91-103 | the wipe keeps exactly the rows of other sources, unchanged |
| `Store.Database.SaveRawListing` | scraper.py:91-117 | the raw table becomes `SaveRaw` of the old one; the other tables are unchanged |
| `Store.Database.UpsertNormalisedListing` | scraper.py:119-170 | the normalised table becomes `UpsertNormalised` of the old one; the other tables are unchanged |
| `Store.Database.UpsertFullRow` | repair_missing_normalised.py:99-113 | the row under the id is replaced as a whole, main image path included |
| `Store.Database.WipeSource` | repair_normalised_from_raw.py:91-103 | the normalised table becomes `WithoutSource` of the old one |
| `Store.Database.InsertImage` | repair_missing_normalised.py:151-158 | one image row with the original url and no storage path |
| `Store.Database.SetMainImagePath` | repair_missing_normalised.py:161-164 | an update on a missing id changes nothing; otherwise only the main image path of that row changes |
| `LinkDiscovery.Linkrefs` | scraper.py:218-221 | cards without a linkref are skipped: at most one link per card, none empty |
| `LinkDiscovery.LinkrefsAppend` | scraper.py:218-238 | the links of two card lists are the links of each in order |
| `LinkDiscovery.FirstHit` | scraper.py:229-236 | the first card whose link carries the watermark id, or the page length |
| `LinkDiscovery.ScanPage` | scraper.py:218-238 | no link returned from a page is empty or the watermark |
| `LinkDiscovery.ScanPageStopsAtWatermark` | scraper.py:218-238 | a page yields the links of the cards before the first watermark card, in order, and stops the walk exactly when there is such a card |
| `LinkDiscovery.NoWatermarkKeepsEveryLink` | scraper.py:194-233 | on a first run (no watermark) every linkref is kept and the walk never stops early |
| `LinkDiscovery.PageRangeAt` | scraper.py:201-240 | the i-th of the consecutive page URLs is that of page first + i |
| `LinkDiscovery.Crawl` | scraper.py:203-241 | at most `max_pages - page + 1` pages are requested, and some page is exactly when `page <= max_pages` |
| `LinkDiscovery.CrawlRequestsConsecutivePages` | scraper.py:201-240 | the pages requested are page, page + 1, … with none skipped |
| `LinkDiscovery.CrawlStopsOnlyWhenDone` | scraper.py:203-236 | every page but the last was fetched, non-empty and free of the watermark; the walk ends early only on a page that was not |
| `LinkDiscovery.CrawlLinksInPageOrder` | scraper.py:218-238 | the links are those of the requested pages in page order, duplicates kept |
| `LinkDiscovery.CrawlNeverReturnsWatermark` | scraper.py:229-238 | no returned link is empty or the watermark listing |
| `LinkDiscovery.NothingNewStopsAtOnce` | scraper.py:229-236 | a watermark on the first card of page 1 gives no link and a single request |
| `LinkDiscovery.StopsAtFailedFetch` | scraper.py:205-207 | the walk requests no page beyond the first one whose fetch fails |
| `LinkDiscovery.ScanListings` | scraper.py:218-238 | the per-page loop computes `ScanPage` |
| `LinkDiscovery.CrawlAdvance` | scraper.py:203-240 | one turn of the page loop advances the walk by exactly one page's links and request |
| `LinkDiscovery.GetLinks` | scraper.py:184-243 | `get_links` returns the walk's links and requests exactly the walk's pages |
| `Orchestrator.NormalisedKeysHaveRawKeys` | scraper.py:482-493 | the raw page is saved before parsing, so while raw writes succeed every normalised key has a raw key |
| `Orchestrator.StepKeepsKeyInclusion` | scraper.py:482-493 | one link keeps that inclusion |
| `Orchestrator.OnlyLinkKeysChange` | scraper.py:478-499 | rows under ids of no visited link are untouched in both tables |
| `Orchestrator.StepTouchesOwnKey` | scraper.py:478-499 | one link touches only its own id |
| `Orchestrator.PropertiesComeFromLinks` | scraper.py:478-497 | the records collected are appended after those held, one for each link whose page yields a record and no other, in link order; each is that link's parsed record and carries that link as its url |
| `Orchestrator.Outcomes` | scraper.py:480-491 | the i-th entry is what the parser makes of the i-th link's response, and a record carries its link as its url |
| `Orchestrator.OutcomeKeepsLink` | scraper.py:489 | a record parsed for a link carries that link as its url |
| `Orchestrator.ListingIndices` | scraper.py:489-495 | the positions whose outcome is a record, strictly ascending, each below the number of links |
| `Orchestrator.RecordsFollowListings` | scraper.py:489-495 | the j-th record collected is the record at the j-th position whose outcome is a record |
| `Orchestrator.StepAppendsRecord` | scraper.py:482-495 | one link appends its record exactly when its page yields one |
| `Orchestrator.RunCollects` | scraper.py:478-497 | the run appends to the records held exactly the records its links yield, in order |
| `Orchestrator.AsWrittenNothingNormalised` | scraper.py:488-497 | as written, `get_details` writes no normalised row and returns no record |
| `Orchestrator.GetDetails` | scraper.py:468-502 | the loop leaves the tables and the records exactly as `RunUpTo` says, one `Step` per link; the image table is untouched |
| `RepairFromRaw.Batch` | repair_normalised_from_raw.py:51-81 | a range request returns the next at most 200 rows in order; a short batch reaches the end of the table |
| `RepairFromRaw.Gather` | repair_normalised_from_raw.py:45-81 | at least one range is requested, and no more rows are gathered than the table holds from `start` on |
| `RepairFromRaw.GatherRequestsConsecutiveRanges` | repair_normalised_from_raw.py:48-83 | the i-th range requested is [start + 200i, start + 200i + 199] |
| `RepairFromRaw.GatherRangeAt` | repair_normalised_from_raw.py:50-83 | the i-th range requested is the range of the batch reached after i full batches |
| `RepairFromRaw.BatchStartIs` | repair_normalised_from_raw.py:83 | after i increments of `start += BATCH_SIZE` the batch starts at start + 200i |
| `RepairFromRaw.GatherIsContiguous` | repair_normalised_from_raw.py:71-81 | the rows gathered are the table's rows from `start` on, in order, none skipped |
| `RepairFromRaw.GatherLoadsEverything` | repair_normalised_from_raw.py:71-81 | without a failing request every row is loaded |
| `RepairFromRaw.FetchAll` | repair_normalised_from_raw.py:42-88 | the load raises exactly when the first batch fails; otherwise it returns the rows gathered |
| `RepairFromRaw.LaterFailureKeepsPrefix` | repair_normalised_from_raw.py:62-69 | a later failing batch returns the rows before it: a prefix of the table |
| `RepairFromRaw.LaterFailureReturnsRowsBefore` | repair_normalised_from_raw.py:62-83 | when the batch at `s` is the first request that fails, the load succeeds with exactly the rows before `s` |
| `RepairFromRaw.GatherStopsAtFailure` | repair_normalised_from_raw.py:62-83 | from any start, with no failing batch before the one at `s`, the rows gathered are the table's rows from the start up to `s` |
| `RepairFromRaw.GatherAdvance` | repair_normalised_from_raw.py:45-83 | one turn of the batch loop advances the load by one batch and one range |
| `RepairFromRaw.FetchAllRawListings` | repair_normalised_from_raw.py:42-88 | the `while True` loop computes `FetchAll` |
| `RepairFromRaw.RowOutcomeOf` | repair_normalised_from_raw.py:127-182 | a row is invalid exactly when it has no id, no payload, no html or no url. For a valid row the parser decides: an exception gives a parse failure, None a rejected page, and a record an upsert when the call is accepted (a failed upsert otherwise). An upserted row is written under its own id, holding exactly the record the parser returned |
| `RepairFromRaw.ReplayCounters` | repair_normalised_from_raw.py:123-164 | `success_count` counts the upserted rows, `fail_count` the invalid rows, parser exceptions and refused upsert calls, and `parse_none_count` the rejected pages (each counter is the number of rows of its outcomes, through `Count`) |
| `RepairFromRaw.CountersPartitionRows` | repair_normalised_from_raw.py:123-182 | the three counters add up to the number of rows |
| `RepairFromRaw.OnlyUpsertedRowsWrite` | repair_normalised_from_raw.py:134-182 | invalid rows, parser failures, rejected pages and failed upserts write nothing |
| `RepairFromRaw.SourceRowsComeFromReplay` | repair_normalised_from_raw.py:118-175 | after the wipe, every normalised row of the source was written by an upserted raw row with that id |
| `RepairFromRaw.AsWrittenNoSuccess` | repair_normalised_from_raw.py:166-182 | as written, `success_count` stays 0 and the wiped table stays wiped |
| `RepairFromRaw.CorrectedReplayUpserts` | repair_normalised_from_raw.py:166-175 | with the upsert call and the coordinates repaired (the parser `PageParse` over `ExtractCoordinatesIntended`), a valid row whose page has the anchors is upserted under its id with its own url |
| `RepairFromRaw.RebuildNormalisedFromRaw` | repair_normalised_from_raw.py:108-182 | a failing first batch raises before any write. Otherwise the wipe comes first, then the replay; the counters and the table are those of the replay over the wiped table. |
| `RepairFromRaw.ReplayRows` | repair_normalised_from_raw.py:123-182 | the loop computes the counters and table of `Replay` |
| `RepairFromRaw.ReplayRow` | repair_normalised_from_raw.py:127-182 | the loop body classifies the row as `RowOutcomeOf` says, bumps the counter `Count` names, and writes only an upserted row (`Write`) |
| `RepairMissing.InsertSorted` | repair_missing_normalised.py:68 | insertion keeps exactly the old elements plus the new one |
| `RepairMissing.InsertSortedAscending` | repair_missing_normalised.py:68 | insertion keeps a list strictly ascending |
| `RepairMissing.MissingIds` | repair_missing_normalised.py:65-68 | an id is listed exactly when it is a raw id and not a normalised id |
| `RepairMissing.MissingIdsAscending` | repair_missing_normalised.py:68 | the list is strictly ascending in Python's string order, so free of duplicates |
| `RepairMissing.SelectIds` | repair_missing_normalised.py:62-63 | a select returns every key of the table and nothing else |
| `RepairMissing.GetMissingNormalisedIds` | repair_missing_normalised.py:58-70 | sorted, duplicate-free, and exactly the ids with a raw row and no normalised row |
| `RepairMissing.FillImagesSpec` | repair_missing_normalised.py:134-158 | the filled table `FillImages`: existing image rows are never re-inserted or changed; each missing index gets one row with its url and no storage path; no other row appears |
| `RepairMissing.WithMainImage` | repair_missing_normalised.py:161-164 | the update changes only the main image path of an existing row |
| `RepairMissing.RepairListingImages` | repair_missing_normalised.py:127-164 | no url list means no write. Otherwise the image rows are filled in. The main image path is set only from a pre-existing index-0 row (`MainImagePath`), and only when that path is truthy. |
| `RepairMissing.Classify` | repair_missing_normalised.py:76-117 | each ending exactly for its case: no raw row; a null payload; no html; then for stored html the parser decides: an exception, None, or a record. A repair happens exactly when the parser returns a record, and it carries that record and the payload's image urls (an empty list when there are none) |
| `RepairMissing.Returned` | repair_missing_normalised.py:80-120 | True exactly for a repaired listing; an exception exactly for a null payload or a parser exception |
| `RepairMissing.ReturnsFalseExactly` | repair_missing_normalised.py:80-97 | False exactly when there is no raw row, no stored html, or the parser returns None |
| `RepairMissing.RepairOne` | repair_missing_normalised.py:99-117 | nothing is written unless the page parses. Then the full row is upserted with source "mubawab", type "rent" and no main image, and the images are filled in. A pre-existing index-0 path becomes the main image path. Normalised keys are never removed. |
| `RepairMissing.RepairSingleListing` | repair_missing_normalised.py:76-120 | returns and writes what the specification says, the upsert before the images |
| `RepairMissing.CountRepaired` | repair_missing_normalised.py:176-180 | the number of repairs is at most the number of ids |
| `RepairMissing.RepairedCountsTrueReturns` | repair_missing_normalised.py:176-182 | `repaired` counts the True returns, so it never exceeds the number of missing ids; the run fails exactly when some repair raises |
| `RepairMissing.RepairedIdsAreNormalised` | repair_missing_normalised.py:178-180 | after a run every repaired id has a normalised row |
| `RepairMissing.FailureIsFinal` | repair_missing_normalised.py:178-180 | an exception ends the loop: later ids are never looked at |
| `RepairMissing.RepairAllMissing` | repair_missing_normalised.py:170-182 | `main` repairs the sorted missing ids one by one, and its count and tables are those of `RepairUpTo` |

## Left out

- I/O of every kind is left out:
  - the HTTP session, the timeout and the random sleeps;
  - the Supabase client, logging, progress bars and the returned DataFrame;
  - environment loading.

  The network and the store's answers are parameters instead.
- HTML parsing by BeautifulSoup is left out; a page is a `Doc` value.
- `extract_coordinates`' script search and float parsing are left out. They come after line 338,
  which always raises, and floating point is out of scope. The repaired extraction returns the
  coordinates the `Doc` holds.
- `get_last_external_id` and `main.py` are left out; the watermark is a parameter of `GetLinks`.
- The `scraped_at_client` timestamp of the raw payload is left out. It is a clock reading.
- `fetch`'s except block logs an undefined name, so a failed request raises NameError instead of
  returning None. The model follows the evident intent: a failed fetch is `None`.
- `re.IGNORECASE`'s Unicode case folding is left out. Only ASCII letters match case-insensitively.
  Python's extra folds (dotless ı, long ſ, the Kelvin sign) are not modelled.
- `\d` and `\w` are ASCII in the model. Python's Unicode digits and letters are not modelled.
- `Cleaners.CleanInteger`: CPython refuses `int()` on a decimal string longer than 4300 digits by default,
  and `clean_integer` catches the ValueError and returns None; the model has no digit limit and
  returns the value.
- `Cleaners.CleanAge`: the same 4300-digit limit makes `int()` raise in `clean_age`, which does not
  catch it, so `parse_property_page` raises; the model returns the range.
- `Cleaners.CleanRooms`: the same 4300-digit limit makes `int()` raise in `clean_rooms`, which does not
  catch it, so `parse_property_page` raises; the model returns the number.
- `Store.Database.SaveRawListing`: a write refused by the store is modelled as no change. The logged
  error is not modelled.
- `RepairFromRaw.RebuildNormalisedFromRaw`: the wipe is modelled as always succeeding; an exception
  the wipe itself raises is not modelled. A correct upsert call that the store refuses is swallowed
  inside `upsert_normalised_listing`, so it counts as a success that writes nothing.
- `RepairMissing.RepairSingleListing`: the store is modelled as accepting every upsert, insert and
  update. An exception from a refused write is not modelled.
- `RepairMissing.RepairSingleListing`: a stored payload without a `url` passes `""` to the parser,
  where Python passes None. The record then carries `""` instead of None as its url.
- `RepairMissing.RepairListingImages`: the model assumes at most one image row per (id, index), the
  key the model gives the table. Python reads `exists[0]` of whatever the select returns.
- The upload of images to storage happens in none of the modelled files and is not part of this
  model.
- `repair_missing_normalised.py` imports `get_image_links`, which `scraper.py` does not define,
  so the script as written stops at import. The model describes the script as if the import succeeded.
- `PageParser.NumberOfFloorsAlwaysNone`: line 461 applies `clean_integer` to an int. The model
  states the as-written result (always None) and has no corrected counterpart, since the intended
  value is evidently the first `clean_integer` result.
- `Orchestrator.GetDetails`: the record appended as a dict is modelled as the `PropertyDetails`
  value itself.

## Findings

| source | as written | input that shows it | evidently intended | confidence | as-written member | corrected member |
|---|---|---|---|---|---|---|
| scraper.py:309 | `cond_str == 'Old'` compares and discards the result | `clean_condition("Due for reform")` returns "Due for reform" | assign "Old", so every result is "Good", "Old" or "New" | not executed | `Cleaners.DueForReformEscapesConditionSet` | `Cleaners.CleanConditionIntended` |
| scraper.py:338 | `lat = Optional[float] = None` assigns into `Optional[float]`, which raises TypeError | any page that has the price, area and title tags | `lat: Optional[float] = None`, so a page with the anchors yields a record | not executed | `PageParser.ParsePropertyPage` | `PageParser.ParsePropertyPageCorrected` |
| repair_normalised_from_raw.py:167-173 | `upsert_normalised_listing` is called with `external_id` and `main_image_path`, which its signature (scraper.py:119-123) lacks; the TypeError is counted as a failure | any raw row with an id, html and url whose page parses | upsert the record under the row's id with no main image | not executed | `RepairFromRaw.AsWrittenNoSuccess` | `RepairFromRaw.CorrectedReplayUpserts` |
