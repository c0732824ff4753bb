# Listing reconciliation of the SUUMO rental scraper

The Streamlit app in `streamlit_app.py` scrapes rental listings from SUUMO search pages. On every refresh it reconciles the fresh listings with the snapshot stored for that search (`save_to_json`, lines 112-141), and it shows each stored listing with a `☆` in front of its title when it is a new arrival (line 168). This project models that reconciliation and proves what it guarantees.

A listing (`Listings.Listing`) is a record of raw text fields, plus an optional URL and a flag:

| field | source column |
|---|---|
| `title` | `名前` |
| `price` | `価格` |
| `address` | `所在地` |
| `floorPlan` | `間取り` |
| `area` | `専有面積` |
| `age` | `築年数` |
| `fetchedAt` | `取得日` |
| `url` | `URL` (absent when the page item had no link) |
| `flag` | `フラグ` (`Dash` for `-`, `Star` for `☆`) |

Listings are compared by two keys:

- `Key5`: price, address, floor plan, area and age. New arrivals are matched on this key.
- `Key6`: `Key5` plus the URL. Removals are detected and duplicates dropped on this key.

An absent URL equals another absent URL, as it does in pandas joins, `isin` and `drop_duplicates`.

A refresh consists of four steps:

1. **Strip prior titles** (line 122). `Titles.NormaliseTitle` removes every `☆`, then every `-`, from each stored title. `Reconciliation.NormaliseAll` applies it to the stored frame.
2. **Flag new arrivals** (lines 124-128). `Reconciliation.FlagIncoming` first resets every incoming flag to `-`. If there is a stored frame, it then collects the URLs of the incoming records that have no `Key5` match in it, and stars every incoming record whose URL was collected. The flag therefore goes by URL, not by row.
3. **Detect removals** (lines 131-133). `Reconciliation.Removed` returns the stored records with no `Key6` match among the incoming records.
4. **Merge** (lines 138-139). `Dedup.DropDuplicates` runs over the stored frame followed by the incoming frame. It keeps the first record of each `Key6` (`Dedup.KeepFirst`).

The modules:

- `Reconciliation.Reconcile` composes the four steps as functions.
- `Engine.Reconcile` carries them out the way the source does. It updates two arrays in place, one column at a time: the title column, then the flag column, then the `.loc` star assignment. It then scans for removals and deduplicates the concatenated frame in place (`Engine.DropDuplicatesInPlace`). Each method is proved equal to its function.
- `AsWritten.SaveToJson` models `save_to_json` as the code stands, including the pandas `KeyError`s it raises (see "## Findings"). `AsWritten.SaveToJsonUrlFixed` is the same refresh with only line 128 corrected. With nothing stored and nothing scraped, the frame at line 139 is empty. `drop_duplicates` returns an empty frame without looking up its subset columns, so the empty snapshot is saved.

Some behaviours of the code differ from what one might expect. The model follows the code:

- **First refresh.** One might expect every listing of a first refresh to count as new. The code stars none, because lines 125-128 are skipped when nothing is stored.
- **Re-run.** One might expect a re-run with the merged snapshot and the same scrape to report nothing removed. Removed listings stay in the snapshot (line 138), so they are reported again. `Reconciliation.RerunIsStable` proves what does hold.
- **Flag rule.** New arrivals are starred by URL (line 128), not record by record. `Reconciliation.SharedUrlStarsMatchedRecord` shows the difference. `Reconciliation.DistinctUrlsStarExactlyUnmatched` shows the two agree when incoming URLs are distinct.

## Model

| member | source | states |
|---|---|---|
| Titles.WithoutSpec | streamlit_app.py:122 | removing a character leaves no copy of it, keeps every other character with its multiplicity and never lengthens the title |
| Titles.WithoutAppend | streamlit_app.py:122 | deleting a character from `a + b` deletes it from `a` and from `b` separately, so the kept characters stay in order |
| Titles.NormaliseTitleSpec | streamlit_app.py:122 | a stripped title holds neither `☆` nor `-`, and its characters are the original's minus every marker, counted with multiplicity |
| Titles.NormaliseTitleAppend | streamlit_app.py:122 | stripping `a + b` strips `a` and `b` separately: the stripped title keeps the order of its characters |
| Titles.NormaliseCleanTitle | streamlit_app.py:122 | a title without markers is left as it is |
| Titles.NormaliseTitleIdempotent | streamlit_app.py:122 | stripping twice equals stripping once |
| Titles.DecoratedTitleStripped | streamlit_app.py:122 | the decorated title `☆Foo-` is stored as `Foo` |
| Titles.DisplayTitleShowsFlag | streamlit_app.py:168 | a listing flagged `☆` is shown as `☆ ` followed by its stored title, any other listing under its stored title unchanged; so for a title without `☆` the heading starts with `☆` exactly when the listing is flagged `☆` |
| Dedup.KeepFirstKeys | streamlit_app.py:139 | deduplication keeps exactly the keys of the frame that were not already taken |
| Dedup.KeepFirstUnique | streamlit_app.py:139 | no two kept records share a `Key6`, and none has a key already taken |
| Dedup.KeepFirstMember | streamlit_app.py:139 | a record is kept exactly when it occurs at a position where its key is neither taken nor carried by an earlier record (keep='first') |
| Dedup.KeptIsFirst | streamlit_app.py:139 | every kept record is the first occurrence of its key |
| Dedup.FirstIsKept | streamlit_app.py:139 | every first occurrence of an untaken key is kept |
| Dedup.KeepFirstSize | streamlit_app.py:139 | the result holds one record per distinct untaken key |
| Dedup.KeepFirstAppend | streamlit_app.py:138-139 | deduplicating `p + q` deduplicates `p`, then `q` with the keys of `p` taken |
| Dedup.KeepFirstOfUnique | streamlit_app.py:139 | a frame with distinct, untaken keys is left as it is |
| Dedup.KeepFirstAllSeen | streamlit_app.py:139 | a frame whose keys are all taken contributes nothing |
| Reconciliation.NormaliseAllProperties | streamlit_app.py:122 | after step 1 no stored title holds a marker; every other field, flag included, is unchanged; both keys are unchanged; a second pass changes nothing |
| Reconciliation.NormaliseAllKeepsUnique | streamlit_app.py:122 | step 1 keeps distinct keys distinct |
| Reconciliation.FlagIncomingSpec | streamlit_app.py:124-128 | step 2 changes only the flag; a record ends with `☆` exactly when there is a stored frame and its URL is that of an incoming record with no `Key5` match in it |
| Reconciliation.NewArrivalUrlsAfterReset | streamlit_app.py:126-127 | the URLs collected from the reset frame are exactly those of the unmatched incoming records |
| Reconciliation.FlagIncomingKeys | streamlit_app.py:124-128 | step 2 changes neither key of any record |
| Reconciliation.EmptyPriorStarsNothing | streamlit_app.py:121-131 | with no stored frame every incoming flag is `-`, nothing is reported removed, and the snapshot is the deduplicated incoming frame |
| Reconciliation.UnmatchedIsStarred | streamlit_app.py:126-128 | with a stored frame, every incoming record with no `Key5` match is starred |
| Reconciliation.DistinctUrlsStarExactlyUnmatched | streamlit_app.py:126-128 | with distinct incoming URLs, a record is starred if and only if it has no `Key5` match |
| Reconciliation.SharedUrlStarsMatchedRecord | streamlit_app.py:128 | a matched record sharing its URL with an unmatched one is starred too |
| Reconciliation.Removed | streamlit_app.py:131-133 | the report holds exactly the stored records with no `Key6` match among the incoming records, and is no longer than the stored frame |
| Reconciliation.RemovedCounts | streamlit_app.py:131-133 | the report holds each stored record as often as the stored frame does when its `Key6` was not scraped, and not at all otherwise |
| Reconciliation.RemovedAgainstEmpty | streamlit_app.py:131-133 | against an empty scrape every stored record is reported removed, in stored order |
| Reconciliation.RemovedExactly | streamlit_app.py:131-133 | the report of a refresh holds exactly the stripped stored records whose `Key6` the scrape lacks |
| Reconciliation.RemovedKeys | streamlit_app.py:131-133 | the report's keys are the stored keys minus the scraped keys |
| Reconciliation.MergedShape | streamlit_app.py:138-139 | the snapshot is the deduplicated stripped stored frame followed by the flagged incoming records whose key is neither stored nor earlier in the scrape |
| Reconciliation.MergedUnique | streamlit_app.py:139 | no two records of the snapshot share a `Key6` |
| Reconciliation.MergedKeys | streamlit_app.py:138-139 | the snapshot's keys are the stored keys together with the scraped keys; no stored key is lost |
| Reconciliation.MergedSize | streamlit_app.py:138-139 | the snapshot has one record per distinct key, so at least as many as the distinct stored keys |
| Reconciliation.PriorWins | streamlit_app.py:122-139 | a snapshot record with a stored key is a stripped stored record with the flag it was stored with; any other snapshot record is a flagged incoming record |
| Reconciliation.NewArrivalsSurvive | streamlit_app.py:126-139 | with a stored frame, every incoming record with no `Key5` match is in the snapshot as a starred record with its `Key6` |
| Reconciliation.FirstPriorRecordsKept | streamlit_app.py:138-139 | the first stored record of each key is in the snapshot, with only its title stripped |
| Reconciliation.RemovedStayInMerged | streamlit_app.py:132-139 | each reported key stays in the snapshot; with distinct stored keys, so does each reported record |
| Reconciliation.CoveredPriorStarsNothing | streamlit_app.py:126-128 | when the stored 5-field keys cover those of the scrape, nothing is starred |
| Reconciliation.CoveredPriorAddsNothing | streamlit_app.py:138-139 | when distinct stored keys cover the scrape, the snapshot is the stripped stored frame |
| Reconciliation.RerunIsStable | streamlit_app.py:121-139 | re-running with the snapshot and the same scrape stars nothing and adds no record; the report again lists the stored keys the scrape lacks |
| Reconciliation.FirstRefreshStarsNothing | streamlit_app.py:121-128 | on a first refresh a scraped `☆` is reset to `-` and the listing is stored |
| Reconciliation.SameListingAgain | streamlit_app.py:121-139 | a listing scraped again with the same `Key6` leaves the snapshot with the stripped stored record, flag as stored, and reports nothing |
| Reconciliation.DecoratedPriorTitleMatches | streamlit_app.py:122-139 | a stored `☆Foo-` matches a scraped `Foo`, and the snapshot keeps the stored record |
| Engine.StripPriorTitles | streamlit_app.py:122 | the stored array ends with every title stripped |
| Engine.ResetFlagColumn | streamlit_app.py:124 | the incoming array ends with every flag `-` |
| Engine.CollectNewArrivalUrls | streamlit_app.py:126-127 | returns exactly the URLs of the incoming records with no `Key5` match in the stored array |
| Engine.StarByUrl | streamlit_app.py:128 | stars exactly the incoming records whose URL was collected, changing nothing else |
| Engine.DetectRemovals | streamlit_app.py:131-133 | returns exactly the stored records with no `Key6` match among the incoming records, in stored order |
| Engine.DropDuplicatesInPlace | streamlit_app.py:138-139 | the array's first `n` cells end holding the first record of each key, in frame order |
| Engine.Reconcile | streamlit_app.py:112-139 | leaves the stored array stripped and the incoming array flagged, and returns the snapshot and the report of `Reconciliation.Reconcile` |
| AsWritten.OnlyFirstRefreshSaves | streamlit_app.py:112-139 | as written, a snapshot is saved exactly when nothing is stored, and then with no listing starred |
| AsWritten.UrlFixedSavesOnlyWithoutRemovals | streamlit_app.py:131-136 | with line 128 corrected, a snapshot is saved only when every stored key was scraped again |
| AsWritten.SecondRefreshRaises | streamlit_app.py:126-128 | a second refresh with a changed listing raises at line 128; the intended steps store both listings, star the new one and report the old one |
| AsWritten.RemovalReportRaises | streamlit_app.py:132-136 | with line 128 corrected, that refresh raises at line 136, while the intended steps report the old listing and keep it |
| AsWritten.RentChangeRaises | streamlit_app.py:126-136 | the concrete input: a rent that changes from 8.5万円 to 9.0万円 makes both versions of the code raise |
| AsWritten.EmptyScrapeRaises | streamlit_app.py:119-139 | an empty scrape raises when a snapshot is stored and saves the empty snapshot when none is; the intended steps keep every stored key and report every stored listing as removed |

## Left out

- Storage on GitHub (lines 23-62) is left out. This covers loading the stored snapshot (line 113), handing the snapshot to storage (line 141), the HTTP calls, the token and the SHA lookup. The stored snapshot is an input and the merged snapshot an output.
- Scraping and pagination (lines 72-109) are left out: HTTP, HTML selection and `datetime.now()`. The incoming listings are given, and `fetchedAt` is an opaque string.
- The Streamlit user interface (lines 135-136 and 144-174) is left out, except the title rule at line 168 (`Titles.DisplayTitle`). The app only displays that title and never stores it.
- pandas mechanics are written as sequence filters and key-set membership. This covers the `_merge` indicator columns, the `_x`/`_y` suffixes, and the row multiplication of many-to-many joins.
- Reconciliation.Removed: keeps the stored order, whereas an outer join in pandas orders its rows by key. Only the report's contents and multiplicities are promised (`Reconciliation.RemovedCounts`).
- Engine.Reconcile: requires the stored and the incoming arrays to be two different arrays. pandas builds them as two separate frames (lines 115-119).
- Nothing stored is modelled as the empty sequence. The loader returns `None` on any request failure, including network and HTTP errors, not only a missing file (lines 29-31). A failed load therefore reaches lines 114-117 as "nothing stored", and that refresh saves a snapshot without any previously stored listing. The model does not tell a failed load from an empty store.
- Other pandas errors are left out, including records with missing columns. Each listing is a complete record.

## Findings

| source | as written | input that shows it | evidently intended | confidence | as-written member | corrected member |
|---|---|---|---|---|---|---|
| streamlit_app.py:126-128 | the left join carries `URL` as a non-key column of both frames, so pandas names them `URL_x` and `URL_y`, and `new_properties['URL']` raises `KeyError` whenever a snapshot is stored | a stored listing and a scrape of it with the rent changed from 8.5万円 to 9.0万円 | star the incoming records whose URL is that of an unmatched incoming record | high, not executed | AsWritten.SecondRefreshRaises | Reconciliation.FlagIncomingSpec |
| streamlit_app.py:132-136 | the outer join suffixes `名前` the same way, so displaying `removed_properties[['名前', …]]` raises `KeyError` whenever something was removed | the same input, with line 128 corrected | show the removed listings and go on to save the merged snapshot | high, not executed | AsWritten.RemovalReportRaises | Reconciliation.RemovedExactly |
| streamlit_app.py:119-126 | an empty scrape builds a frame with no key columns, so the join at line 126 raises `KeyError` whenever a snapshot is stored | any non-empty stored snapshot and a scrape that returns no listing | keep every stored listing and report all of them as removed | high, not executed | AsWritten.EmptyScrapeRaises | Reconciliation.MergedKeys |
