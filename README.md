# Freight settlement engine — a verified Dafny model

This project models the core of a settlement tool for contracted freight drivers in Dafny and proves properties of the model. It has five parts.

- **Region classifier and fee resolver** (`public/batch_settle.js`; modules `Regions`, `FeeResolver`).
  - A free-text delivery address becomes a region keyword.
  - A dispatch row is priced from the versioned price table:
    - the base fee is the highest-priced active fee of the row's year and affiliation for a region that the row's addresses touch;
    - the surcharges are extra drop-offs, P-box, return trip, zone level and vehicle class;
    - a reason text lists the parts in a fixed order.
  - A '||'-separated address list is summarised as region counts.
- **Versioned price table and ledgers** (`api/storage.js`; modules `PriceTable` with class `FeeStore`, `Ledgers` with class `Ledger<T>`).
  - A fee whose price changes is never edited.
  - Instead, every active fee of the same (affiliation, year, region) tuple is frozen: it becomes readonly, its region is marked ' (변경)' and its memo gets a dated note. A fresh active fee is then appended.
  - The settlement-history, driver and affiliation ledgers are id-keyed upsert and delete operations.
- **Dispatch consolidation** (`api/index.js`; modules `Consolidation`, `HistoryListing`).
  - Rows of registered drivers that pass the name search are grouped per (date, driver name without spaces).
  - Each group sums its counts and weights and unions its destinations and addresses. Its weight is rounded up.
  - A group is dropped when settlement history already holds its key.
  - The settlement-history listing is filtered and sorted newest first.
- **Legacy keyword matcher** (`public/dispatch.js`; module `LegacyMatcher`).
  - The longest region occurring in the destination list wins, and a tonnage-exact match is preferred.
  - A '컬리' destination adds 10000.
- **Fee screens** (`public/fees.js`; modules `FeeMatrix`, `FeeView`).
  - A spreadsheet matrix (regions × affiliations) is decoded into fee records.
  - The stored list is filtered by year and free text.
  - The matrix view puts '이룸' first and shows, per region|affiliation key, the last active record.

Shared helpers:

- `Text` gives JavaScript string built-ins their meaning: `trim`, `includes`, `split`, `join`, `replace` with a string pattern, `parseInt`, `toLowerCase` and string comparison.
- `Seqs` models insertion-ordered sets and the array built-ins `filter`, `find` and `reduce` with a sum.
- `Sorting` models `Array.prototype.sort` with a comparator as a stable insertion sort. It proves that the sort orders its result, permutes its input, keeps the input order of ties, and puts a least element first.

Where a step of the source changes state in place, the model is imperative:

- the `FeeStore` and `Ledger` methods;
- the loops of the consolidation, the region tally, the matrix decoder, the matrix view and the legacy matcher.

Each such method is proved equal to a specification function, and the properties are proved about that function.

## Model

| member | source | states |
|---|---|---|
| Regions.NoTokensNoRegion | public/batch_settle.js:58-60 | An address without any non-empty space-separated word classifies as ''. |
| Regions.MetroIgnoresLaterWords | public/batch_settle.js:66-68 | When the first word contains 부산/울산/대구/광주, the region is its first two characters, whatever follows. |
| Regions.ProvinceUsesSecondWord | public/batch_settle.js:71-73 | When the first word names 경남/경상남도/경북/경상북도 and there is a second word, the region is that word with its first '시' and then its first '군' removed. |
| Regions.DropCityCounty | public/batch_settle.js:76 | Removing the designators only deletes characters: the result is no longer than the word and uses only its characters. |
| Regions.RegionHasNoSpace | public/batch_settle.js:57-77 | No region contains a space. |
| RegionCases.ProvinceCityAddress | public/batch_settle.js:71-72 | In a two-tier province, a second word that is a name followed by '시' ("경남 창원시") classifies as the name. |
| RegionCases.CityAddress | public/batch_settle.js:76 | A first word that is a city name followed by '시' ("김해시 불암동") and names no metropolitan city or two-tier province classifies as the name. |
| RegionCases.CountyCharRemovedFirst | public/batch_settle.js:72 | A county word that starts with '군' ("경북 군위군") loses that first '군' and keeps a trailing one ("위군"): the first occurrence is removed, not the suffix. |
| Regions.CountedRegionsCounts | public/batch_settle.js:199-208 | A region is counted exactly when it is not '', '?' or '-' and some address classifies to it, and it is counted once per such address. The counted regions keep address order, since they are the `Seqs.Select` filter. |
| Regions.TableOfTallies | public/batch_settle.js:202-209 | The count table built one address at a time holds each distinct counted region once, in first-insertion order, with its number of occurrences. |
| Regions.CountsAddUp | public/batch_settle.js:202-213 | The counts of the summary add up to the number of counted addresses. |
| Regions.TallyRegions | public/batch_settle.js:202-209 | The counting loop builds exactly the incremental table over the countable regions. |
| Regions.SummarizeRegions | public/batch_settle.js:196-216 | The summary is '-' for an empty or '-' list or when nothing is counted; otherwise it is the "region count" entries joined by ", ". It is never empty. |
| FeeResolver.NumberedAffiliationsMatch | public/batch_settle.js:84-85 | An affiliation with trailing digits matches the same name without them, on the driver side and the fee side. |
| FeeResolver.IsoDateYear | public/batch_settle.js:88 | A date "YYYY-…" selects fees of year YYYY. |
| FeeResolver.RegionsInAddr | public/batch_settle.js:93-94 | The row's regions are the distinct non-empty classifications of its trimmed addresses. |
| FeeResolver.BaseFeeInTable | public/batch_settle.js:97-115 | Read against the whole fee table: a candidate is the base fee when every candidate before it is cheaper and none after it is dearer. So among equally priced candidates, the first in table order wins. |
| FeeResolver.FirstMaximum | public/batch_settle.js:111-115 | In a candidate list, an entry that every earlier entry undercuts and no later entry exceeds is the one `sort(...)[0]` picks, because the sort is stable. |
| FeeResolver.BaseFee | public/batch_settle.js:111-115 | The chosen base fee exists exactly when there are candidates. It has the highest price, and it is the first such candidate in table order. |
| FeeResolver.BasePrice | public/batch_settle.js:109-143 | The base price is 0 without candidates; otherwise it is the price of some candidate and no candidate is higher. |
| FeeResolver.SoleCandidate | public/batch_settle.js:111-115 | With a single candidate, its price is the base price. |
| FeeResolver.FirstMatch | public/batch_settle.js:120-134 | `find` returns a matching fee, or none exactly when no fee matches. |
| FeeResolver.FindExtraFee | public/batch_settle.js:118-137 | A company-specific auxiliary fee wins over a common ('ALL'/'공통') one. The result is none exactly when neither exists. |
| FeeResolver.FirstCompanyFeeWins | public/batch_settle.js:120-125 | Among company-specific fees, the first in table order is used. |
| FeeResolver.FirstCommonFeeWins | public/batch_settle.js:128-135 | Without a company-specific fee, the first common fee is used. |
| FeeResolver.ExtraStops | public/batch_settle.js:90-149 | Every drop-off after the first is an extra stop; a count of at most one gives no extra stop. |
| FeeResolver.SurchargeSteps | public/batch_settle.js:143-165 | One more drop-off (from one on) adds the stop fee's price, one more gwon adds 10000, and the P-box and return flags each add their fee's price. |
| FeeResolver.MissingAuxiliaryFeesAddNothing | public/batch_settle.js:118-165 | Whatever other fees exist, an auxiliary fee without any company-specific or common record adds nothing. The P-box or return flag, the number of drop-offs, or the selected vehicle class then leaves the surcharge unchanged, and nothing fails. |
| FeeResolver.ReasonShape | public/batch_settle.js:169-181 | A failed match gives exactly "(summary) [!] 단가표 매칭 실패". A match starts with "(summary) [region기준] base원", and is exactly that text when no surcharge note applies. |
| FeeResolver.Explain | public/batch_settle.js:169-181 | The reason is the base part followed by the notes in the fixed order extra stops, P박스, 회송, 권역, tonnage, each only when it applies; a non-positive base price gives the failure text. |
| FeeResolver.AppendNotes | public/batch_settle.js:174-178 | The notes are appended to the head, in the fixed order, each only when its condition holds. |
| FeeResolver.ChooseBaseFee | public/batch_settle.js:109-115 | The chosen base fee is the first highest-priced candidate; the base price is its price, or 0 without candidates. |
| FeeResolver.Surcharges | public/batch_settle.js:118-165 | The extra-stop count, surcharge amount and vehicle-class amount are those of the auxiliary-fee lookups above. |
| FeeResolver.CalculateSmartPrice | public/batch_settle.js:82-191 | The result's regions, base price, surcharge and reason are those of the specification above. The final price is base plus surcharge. Success means a positive base price. |
| PriceTable.FindIndex | api/storage.js:52 | The index of the first record with the id, or -1 exactly when no record has it. |
| PriceTable.MemoWithNote | api/storage.js:90 | The new memo ends with the note. |
| PriceTable.MemoKeepsOldMemo | api/storage.js:90 | The new memo is the note alone when the old memo is empty; otherwise it is the old memo, a space, then the note. |
| PriceTable.FreezeRegionOnce | api/storage.js:89 | A region is marked ' (변경)' once; freezing it again changes nothing. |
| PriceTable.FeeStore.FreezeMatching | api/storage.js:83-94 | The freeze loop freezes, in place, exactly the active records of the tuple. |
| PriceTable.FeeStore.SaveFee | api/storage.js:43-110 | The returned flag and the new list are those of the save rule (refuse, create or merge). |
| PriceTable.FeeStore.ArchiveFee | api/storage.js:112-126 | The flag and the new list are those of the archive rule. |
| PriceTable.FeeStore.DeleteFee | api/storage.js:128-132 | The new list is the old one without the id. |
| PriceTable.FeeStore.BulkSaveOne | api/storage.js:140-200 | One batch entry updates the list and the counter as the bulk rule says. |
| PriceTable.FeeStore.SaveFeesBulk | api/storage.js:134-204 | The entries are applied in order to one list, with the counter starting at 0. |
| PriceTable.CreateFreezesTuple | api/storage.js:64-96 | The create path freezes exactly the active records of the new record's tuple and keeps their id and price. It touches nothing else and appends the new record. |
| PriceTable.CreateLeavesOneActive | api/storage.js:83-96 | After the create path, no earlier record is active for the new record's tuple. |
| PriceTable.CreateKeepsOneActive | api/storage.js:64-96 | The create path preserves "at most one active record per tuple". |
| PriceTable.SaveFeeRefusal | api/storage.js:51-54 | A save is refused exactly when its id names a stored readonly record, and then the list is unchanged. |
| PriceTable.SaveFeeCreates | api/storage.js:49-64 | An explicit `true` flag or an absent id always takes the create path. |
| PriceTable.SaveFeeDetectsPriceChange | api/storage.js:56-60 | Without the flag, a stored active target with a different price takes the create path. |
| PriceTable.SaveFeeMergesInPlace | api/storage.js:97-106 | Without a price change, a known id merges in place: the length, the record's id and every other record are kept. |
| PriceTable.SaveFeeUnknownId | api/storage.js:97-106 | An unknown id without a `true` flag changes nothing. |
| PriceTable.SaveFeeKeepsOneActive | api/storage.js:64-96 | Every save that appends keeps at most one active record per tuple. |
| PriceTable.MergeCanBreakOneActive | api/storage.js:97-106 | The merge path can move an active record onto another active record's tuple, which breaks the invariant. |
| PriceTable.ArchiveUnknownId | api/storage.js:115-125 | Archiving an unknown id returns false and changes nothing. |
| PriceTable.ArchiveFreezesOne | api/storage.js:115-124 | Archiving freezes only the first record with the id, readonly or not. |
| PriceTable.WithoutIdMembers | api/storage.js:128-132 | A delete keeps exactly the records with another id, readonly ones included. |
| PriceTable.WithoutIdAppend | api/storage.js:130 | The delete filter keeps order: it distributes over concatenation. |
| PriceTable.WithoutAbsentId | api/storage.js:130 | Deleting an id nobody has changes nothing. |
| PriceTable.BulkStepIds | api/storage.js:159-191 | One bulk entry keeps every stored id and appends at most one record, with id now + count. |
| PriceTable.BulkFreshIds | api/storage.js:137-201 | After a bulk save, the created records carry ids now, now+1, … in batch order. |
| PriceTable.BulkIdsDistinct | api/storage.js:165 | The records created by one bulk save have pairwise distinct ids. |
| PriceTable.BulkReadonlyTarget | api/storage.js:144-159 | A bulk entry aimed at a readonly record with a new price is not refused; it creates a record. |
| PriceTable.BulkUnknownId | api/storage.js:159 | A bulk entry with an unknown id creates a record whatever its flag says. |
| PriceTable.BulkStepKeepsOneActive | api/storage.js:173-191 | A creating bulk entry sees earlier freezes and keeps at most one active record per tuple. |
| Ledgers.FindEntry | api/storage.js:216 | The index of the first entry with the id, or -1 exactly when there is none. |
| Ledgers.Ledger.SaveHistory | api/storage.js:212-232 | The new history is the upsert result: a known id merges, otherwise a record is appended under the fresh id. |
| Ledgers.Ledger.SaveMaster | api/storage.js:246-259 | The new driver list is the master upsert result. `saveAffiliation` (api/storage.js:273-286) is the same operation. |
| Ledgers.Ledger.Delete | api/storage.js:234-238 | The new list is the old one without the id. The same holds for `deleteDriver` and `deleteAffiliation`. |
| Ledgers.SaveKnownIdMerges | api/storage.js:214-218 | A known id merges in place: same length, same id, nothing else touched, in every ledger. |
| Ledgers.SaveHistoryUnknownAppends | api/storage.js:219-230 | A history save with an unknown or absent id appends exactly one record under the fresh id. |
| Ledgers.SaveMasterUnknownIdIgnored | api/storage.js:248-252 | A driver or affiliation save with an unknown id is a no-op. |
| Ledgers.SaveMasterWithoutIdAppends | api/storage.js:253-257 | A driver or affiliation save without an id appends exactly one record. |
| Ledgers.WithoutEntryMembers | api/storage.js:234-238 | A delete keeps exactly the records with another id. |
| Ledgers.WithoutEntryAppend | api/storage.js:236 | The delete filter keeps order. |
| Consolidation.Serialize | api/index.js:82-104 | The date is the first ten characters of a text date (all of a shorter one). The name and division are never empty (defaults '미지정' and '-'), and a given one is kept. |
| Consolidation.FindDriver | api/index.js:115 | A registered driver is found exactly when one has the same space-free name. |
| Consolidation.NewlinesToSpaces | api/index.js:154 | The result has the same length and no CR or LF. Every changed character became a space, and text without CR or LF is returned unchanged. |
| Consolidation.Ceil | api/index.js:176 | The rounded weight is at least the sum and below sum + 1. |
| Consolidation.GroupRows | api/index.js:112-164 | The grouping loop builds exactly the reference table of keys and entries. |
| Consolidation.FinishGroups | api/index.js:169-186 | The output loop finishes the unsettled entries in key order. |
| Consolidation.Consolidate | api/index.js:107-186 | The handler's result equals the consolidation function. |
| Consolidation.GroupedDomain | api/index.js:124-140 | The map's keys and its insertion order agree. |
| Consolidation.GroupedKeys | api/index.js:124-140 | The keys are the distinct keys of the surviving rows, in order of first appearance. |
| Consolidation.SurvivingKeysRows | api/index.js:112-124 | A key is present exactly when some surviving row has it. |
| Consolidation.GroupedEntries | api/index.js:124-163 | Each entry is built from exactly the surviving rows of its key. |
| Consolidation.GroupedSpec | api/index.js:124-164 | One entry per key of a surviving row, in first-appearance order, each folded from exactly its rows. |
| Consolidation.FoldGroupContents | api/index.js:141-163 | An entry's date, name and tonnage are its first row's; its counts and weights are the sums over its rows; its sets are the unions. |
| Consolidation.ItemKeyIsKey | api/index.js:184 | The settled test looks up the entry's own key. |
| Consolidation.DestCountIsDistinctAddresses | api/index.js:174 | `destCount` is the number of distinct addresses, not a sum of per-row counts. |
| Consolidation.DashWhenEmpty | api/index.js:171-172 | The joined lists are '-' exactly when nothing was collected (or the join itself is '-'). |
| Consolidation.RegisteredAffiliationWins | api/index.js:130-145 | A registered affiliation other than '' and '-' is kept whatever the rows say. |
| Consolidation.NoDivisionYet | api/index.js:130-145 | Without a registered affiliation and without any row division, the entry has none. |
| Consolidation.FirstDivisionWins | api/index.js:143-145 | Otherwise the entry takes the cleaned division of the first row that gives one. |
| Consolidation.Unsettled | api/index.js:166-186 | The kept keys are exactly those not in the history's key set. |
| Consolidation.EmitUnsettled | api/index.js:183-186 | The output finishes exactly the entries of the unsettled keys, in order. |
| Consolidation.ConsolidationSpec | api/index.js:107-186 | There is exactly one item per unsettled key of a surviving row, in first-appearance order. Each item has its first row's date and name, the summed count, the ceiling of the summed weight and the number of distinct addresses. |
| Consolidation.SurvivorsAreRegistered | api/index.js:113-122 | Every grouped row belongs to a registered driver and passes the name search. |
| Consolidation.EmptySearchKeepsAll | api/index.js:107-122 | An empty search keeps every row of a registered driver. |
| Consolidation.TotalsOf | api/index.js:189-194 | The driver total is the number of items. The destination, shipment and weight totals are the sums (`reduce`) of the items' `destCount`, `totalCount` and `totalWeight`; the destination total is not negative. |
| HistoryListing.Filtered | api/index.js:358-370 | The filtered list holds exactly the records in the date range whose name contains the search. |
| HistoryListing.NewestFirstTotal | api/index.js:373-376 | The comparator (date descending, then idx descending) is a total preorder. |
| HistoryListing.ListingSpec | api/index.js:358-376 | The listing is a permutation of the filtered records, sorted by date descending and then idx descending. |
| HistoryListing.ListingStable | api/index.js:373-376 | Records that tie keep their stored order. |
| HistoryListing.EmptyQueryListsAll | api/index.js:358 | An empty query lists every record. |
| HistoryListing.NameHitIgnoresSpaces | api/index.js:363-366 | The name search ignores spaces on both sides. |
| LegacyMatcher.LongerRegionTotal | public/dispatch.js:62 | "Longer region first" is a total preorder, so the sort is well defined. |
| LegacyMatcher.FirstHit | public/dispatch.js:65-81 | The loop stops at the first hit; there is none exactly when nothing hits. |
| LegacyMatcher.ScanHits | public/dispatch.js:64-82 | One matching loop with `break` stops at the first fee that hits, or at none. |
| LegacyMatcher.CalculateExpectedPrice | public/dispatch.js:55-95 | The two loops with `break` compute the specified price and reason. |
| LegacyMatcher.EmptyMaster | public/dispatch.js:56 | An empty fee master gives price 0 and reason ''. |
| LegacyMatcher.NoRegionMatches | public/dispatch.js:84 | With no region in the destination list, the result is 0 with '매칭 지역 없음'. |
| LegacyMatcher.FirstHitIsLongest | public/dispatch.js:62-81 | The chosen fee is in the master, hits, and has a region at least as long as every hit. |
| LegacyMatcher.FirstLongestHitWins | public/dispatch.js:62-81 | The sort is stable, so among hits of equal region length the first in master order is matched: a hit whose earlier hits are all shorter and whose later hits are no longer is the one found. |
| LegacyMatcher.ExactMatchPreferred | public/dispatch.js:64-71 | With some tonnage-exact hit, the match is tonnage-exact even if a longer loose hit exists. Its region occurs in the list and is longest among the exact hits. |
| LegacyMatcher.LooseMatch | public/dispatch.js:73-82 | Without an exact hit, the longest occurring region is matched with the "(톤수미일치)" reason. |
| LegacyMatcher.PriceAtLeastBase | public/dispatch.js:86-92 | The price is at least the matched base price, and it exceeds it by 10000 exactly when the list mentions '컬리'. |
| FeeMatrix.DetectYear | public/fees.js:195-207 | The year is the sheet's year row value when it is present and non-zero; otherwise it is the fallback. |
| FeeMatrix.FirstHeader | public/fees.js:211-217 | The header search stops at the first row naming '지역명'; none exactly when no row does. |
| FeeMatrix.HeaderIndex | public/fees.js:211-217 | The header index is within the sheet. |
| FeeMatrix.HeaderDefaultsToFirstRow | public/fees.js:211 | Without a '지역명' row, row 0 is the header. |
| FeeMatrix.HeaderNames | public/fees.js:225 | One trimmed name per header cell. |
| FeeMatrix.Columns | public/fees.js:223-229 | Affiliation columns have indices ≥ 1 within the header, in increasing order. |
| FeeMatrix.ColumnNamed | public/fees.js:224-228 | Every column is named by its trimmed header cell, which is non-empty and contains neither '비고' nor '기타'. |
| FeeMatrix.ColumnIncluded | public/fees.js:224-228 | Every such header cell from index 1 on is a column. |
| FeeMatrix.Price | public/fees.js:247-250 | Only positive amounts are read. |
| FeeMatrix.RowRecords | public/fees.js:244-264 | A row yields at most one record per column. |
| FeeMatrix.DataRecords | public/fees.js:237-265 | The data rows yield at most rows × columns records. |
| FeeMatrix.RowRecordIn | public/fees.js:244-260 | Every positive cell of a kept row yields its record. |
| FeeMatrix.RowRecordFrom | public/fees.js:244-260 | Every record of a row comes from one of its positive cells. |
| FeeMatrix.DataRecordIn | public/fees.js:237-265 | Every record of a kept row after the header is in the output. |
| FeeMatrix.DataRecordFrom | public/fees.js:237-265 | Every output record comes from a kept row after the header. |
| FeeMatrix.DataRecordsSpec | public/fees.js:237-265 | The records are exactly those of the positive cells of the kept rows, and there are at most rows × columns of them. |
| FeeMatrix.RecordShapeOf | public/fees.js:244-259 | Every record has no id, a positive amount, tonnage 'ALL', an empty memo and the detected year. Its affiliation is a column name and its region is not skipped. |
| FeeMatrix.DecodeErrors | public/fees.js:189-224 | An empty sheet, and only that, is refused first; a missing header row fails. |
| FeeMatrix.DecodeParts | public/fees.js:219-272 | A successful import has a present header row and a non-empty record list made of the data records under the header's columns. |
| FeeMatrix.NoColumnsNoRecords | public/fees.js:231-234 | A header without an affiliation name ends the import with no records. |
| FeeMatrix.FindHeader | public/fees.js:211-217 | The search loop with `break` finds the specified header index. |
| FeeMatrix.ScanColumns | public/fees.js:223-229 | The column loop builds the specified columns. |
| FeeMatrix.ReadRow | public/fees.js:244-264 | The per-column loop builds the row's records. |
| FeeMatrix.ReadRows | public/fees.js:237-265 | The row loop skips junk rows and builds the specified records. |
| FeeMatrix.ProcessMatrixRows | public/fees.js:187-279 | The import ends with the specified outcome. |
| Seqs.Select | public/fees.js:29-33 | A filter keeps exactly the rows passing its test and never grows the list. |
| Seqs.SelectAppend | public/fees.js:29-33 | A filter keeps order: it distributes over concatenation. |
| Seqs.SelectCount | public/fees.js:29-33 | A filter keeps each passing row exactly as often as stored and drops the others. |
| FeeView.ListsSpec | public/fees.js:365-370 | The lists hold exactly the stored rows of the year whose lower-cased affiliation (and region) contains the trimmed, lower-cased query. |
| Seqs.SelectAll | public/fees.js:29-33 | A filter that every row passes keeps the list as it is. |
| FeeView.EmptyQueryKeepsAll | public/fees.js:29-33 | An empty form keeps every stored row, in order. |
| FeeView.TextHitIgnoresCase | public/fees.js:31 | The text test ignores the letter case of the stored text. |
| FeeView.Distinct | public/fees.js:59-64 | The axes are the distinct non-empty values of the rows, without duplicates. |
| FeeView.AffiliationOrderTotal | public/fees.js:67-71 | The '이룸'-first comparator is a total preorder. |
| FeeView.LexLessEqTotal | public/fees.js:72 | The default string order is a total preorder. |
| FeeView.Lookup | public/fees.js:75-82 | Every row's key is in the lookup, and each key holds a stored row with that key. |
| FeeView.BuildLookup | public/fees.js:75-82 | The lookup loop builds exactly the specified lookup. |
| FeeView.LookupLastActive | public/fees.js:75-82 | A key with a non-readonly row holds the last such row. |
| FeeView.LookupFirstFrozen | public/fees.js:75-82 | A key whose rows are all readonly holds the first of them. |
| FeeView.RenderFeeMatrix | public/fees.js:48-112 | The two passes and the two sorts build the specified matrix. |
| FeeView.MatrixAxes | public/fees.js:59-72 | The columns are the distinct non-empty affiliations, ordered '이룸' first and then by string order. The rows are the distinct non-empty regions in strictly ascending order. |
| FeeView.IroomFirst | public/fees.js:67-71 | When any row belongs to '이룸', '이룸' is the first column. |
| FeeView.MatrixCell | public/fees.js:97-105 | A cell shows a record exactly when some row has its region|affiliation key, and then it shows a stored row with that key. |

## Left out

- File and database I/O are not part of this model: `readJson`/`writeJson`, Prisma queries, Express routing, `fetch` and all DOM rendering. Every store is an in-memory sequence and every write succeeds.
- Timestamps are not modelled: `Date.now()`, `Math.random()`, `new Date()`, `toLocaleDateString`, and `created_at`/`updated_at`/`saved_at`. Fresh ids and note dates are parameters.
- `formatNumber` (`Intl.NumberFormat`) is an uninterpreted function parameter.
- `localeCompare` and the default `sort()` are modelled as code-point order. This agrees on ISO dates and on Hangul names, but not in general.
- `fixEncoding` (EUC-KR repair) is not part of this model: rows arrive already decoded.
- `toLowerCase`/`toUpperCase` change ASCII letters only.
- Floating point is not modelled:
  - a dispatch weight is an exact `real`;
  - a fee price is an integer;
  - a spreadsheet amount arrives already scaled (`Math.round(v * 10000)`);
  - the tonnage label `(maxWeight/1000)+'T'` is an opaque string.
- FeeMatrix.Price: only cells that are numbers are read as amounts; a text cell such as "9.5", which `parseFloat` would accept, is not.
- FeeResolver.StopCount: `destCount` is an integer, so the `NaN` case of `parseInt(...) || 1` is not modelled (only 0 falls back to 1).
- FeeView.ListsSpec: the year select's text is taken as an already-parsed integer (`None` when empty), not compared with `!=` on strings.
- Regions.Summary: `Object.entries` lists keys that are canonical array indices (a region such as "123") first, in numeric order. The model keeps first-insertion order for every key.
- Object-spread merges are not modelled field by field. A save overwrites the fixed fields of the record datatype, and extra fields are not modelled.
- The legacy matcher reads `basePrice`, while stored fee records carry `price`. The model takes each fee's `basePrice` as given.
- The spreadsheet decoder reads `String(undefined)` as '' in the first column. None of the keywords it looks for occurs in 'undefined' or 'null', so the outcome is the same.
- The classifier removes the first '시' and then the first '군' anywhere in the word, not only as a suffix, although its comment (public/batch_settle.js:75, "김해시 -> 김해") speaks of a suffix. `RegionCases.CountyCharRemovedFirst` shows the difference.
- The merge path of `saveFee` keeps the stored `readonly` flag and does not re-check the tuple. `PriceTable.MergeCanBreakOneActive` shows that it can leave two active records for one tuple.
- PriceTable.FeeStore.ArchiveFee: models `archiveFee` as defined at api/storage.js:112-126. The module's export list (api/storage.js:294-308) omits it, so the archive route (api/index.js:318) fails with a TypeError before the rule runs. The model keeps the rule as written.
- Consolidation.Serialize: models only a text date. A non-string date (a `Date` object, api/index.js:85) goes through `toISOString`, which is not part of this model.
