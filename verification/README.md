# lector-barcode stock counting, modelled in Dafny

lector-barcode is a phone app for counting stock. An operator scans or types a barcode. The app resolves the code to an article of the imported catalog and records a counted line. In the plain screen a line is a quantity per code. In the expiry screen a line is a quantity per code and expiry date. Sessions are exported as spreadsheets.

This project models the logic under that pipeline as pure Dafny functions over immutable data. Each module follows one piece of the program:

| module | what it models |
|---|---|
| `Text` | trimming, digit strings, `normalizeCode` / `normalizeEAN`, the part of `Number(...)` the screens rely on, `pad2` |
| `Seqs`, `Tables`, `Sorting` | filtering, keyed lookup, upsert by key, `ORDER BY` |
| `Scale` | the barcode dialects of `scale.ts`: scale tickets, PLU-packed codes, the weight fallback chain and the base scale code |
| `Catalog` | the `articulos` table and its lookups by code and by PLU |
| `Store` | the `inventoryService` tables and writes: sessions, plain lines, expiry lines, consolidation, cascade delete |
| `Stats` | `getInventoriesWithStats` |
| `Resolver` | `resolveInput` of the expiry screen |
| `PlainFlow`, `ExpiryFlow` | the "add" decisions of both screens, and each dialog answer as a table transformation |
| `Slug`, `Headers`, `CatalogImport` | the catalog importer: header slugs, synonym lookup, header validation, row normalisation, batches |
| `Export` | the row mapping, the summary sheet and the file name of both exports |
| `Scanner` | the `canHandle` throttle of `useScanner` |

Tables are sequences of rows in insertion order. The keys of the `ON CONFLICT` clauses become uniqueness invariants (`UniqueBy`), and every write is proved to keep them. Quantities and weights are exact `real`s. The clock, "today" and the local-time calendar are parameters.

`handleAgregar` in app/inventory/active.tsx asks no whole-number confirmation for an article that is not weighed, and `PlainFlow.NoFractionalGate` states what it does instead.

## Model

| member | source | states |
|---|---|---|
| Scale.PluPackedShape | features/inventory/scale.ts:16-20 | a PLU-packed code is 13 to 15 characters long, all digits |
| Scale.DialectsDisjoint | features/inventory/scale.ts:11-20 | no code is both a scale ticket and a PLU-packed code |
| Scale.ScaleWeight | features/inventory/scale.ts:31-43 | a decoded weight always lies in [0, 100) kg; no weight only when the last four characters are not all digits |
| Scale.WeightFieldBound | features/inventory/scale.ts:36-42 | a field of up to six digits over 10000, or up to five digits over 1000, is below 100 kg |
| Scale.WeightSixDigits | features/inventory/scale.ts:36-37 | six digits at [7,13) always decide the weight, as value / 10000 |
| Scale.WeightFiveDigits | features/inventory/scale.ts:38-39 | without six digits, five digits at [7,12) give value / 1000 |
| Scale.WeightLastFour | features/inventory/scale.ts:40-43 | without either field, the last four characters give value / 10000, or there is no weight |
| Scale.ParseScaleBarcode | features/inventory/scale.ts:22-46 | a ticket is decoded exactly when it is a trimmed scale code of 8 or more characters with digits at [2,7); the PLU is those digits as a canonical number, and the weight is the fallback chain's |
| Scale.ParsedPluStripsZeros | features/inventory/scale.ts:27-29 | the decoded PLU is the padded field without its leading zeros ("00000" gives "0") |
| Scale.ScaleLabelParses | features/inventory/scale.ts:22-46 | any all-digit label starting "20"/"21" decodes to its stripped PLU and the chain's weight |
| Scale.ParseThirteenDigitLabel | features/inventory/scale.ts:32-37 | a 13-digit label weighs its last six digits over 10000 |
| Scale.ParseTwelveDigitLabel | features/inventory/scale.ts:33-39 | a 12-digit label weighs its last five digits over 1000 |
| Scale.DocumentedTicketExample | features/inventory/scale.ts:6-7 | "2100510006657" decodes to PLU "510" and 0.6657 kg |
| Scale.ToBaseScaleEAN | features/inventory/scale.ts:48-56 | the base code exists exactly for scale codes with five digits at [2,7); it is prefix, "0", those digits and "000000", 14 characters |
| Scale.IntendedBaseScaleEAN | features/inventory/scale.ts:48 | the 13-character base code the comment describes: the first seven characters then "000000", defined on the same inputs |
| Scale.IntendedBaseIdempotent | features/inventory/scale.ts:48 | the intended base code is its own base code |
| Scale.IntendedBaseOfLabel | features/inventory/scale.ts:48 | the intended base of a 13-digit label is again a scale label |
| Scale.AsWrittenBaseMismatch | features/inventory/scale.ts:55 | for "2100510006657" the template builds "21000510000000", not the "2100510000000" of its comment, and applying it again moves the PLU field |
| Scale.BaseScaleEAN | features/inventory/scale.ts:48-56 | the base rule the resolver uses: the code as written or the intended one, both defined on the same inputs |
| Scale.ParseImpliesBase | features/inventory/scale.ts:22-29 | every decodable ticket has a base code, and both read the same PLU digits |
| Scale.PluPackedKey | app/inventory/expiry.tsx:101-102 | the PLU key of a packed code is written without leading zeros, and its value is that of the digits after the ten zeros |
| Catalog.FindArticleByEAN | features/inventory/inventoryService.ts:75-82 | the article found has the trimmed code; none is found exactly when no article has it |
| Catalog.FindArticleByEANUnique | features/inventory/inventoryService.ts:75-82 | under the primary key, the article holding the trimmed code is the one found |
| Catalog.FindArticleByPLU | features/inventory/scale.ts:58-66 | the first article, in table order, whose `codigo_articulo` is the trimmed PLU; none exactly when no article has it |
| Catalog.FindArticlesByCodigo | features/inventory/inventoryService.ts:85-96 | a blank code finds nothing; otherwise exactly the articles whose trimmed internal code matches |
| Catalog.PluLookupInFanOut | features/inventory/inventoryService.ts:85-96 | the article the PLU lookup finds is among those the code search lists |
| Tables.Lookup | features/inventory/inventoryService.ts:99-106 | the row found carries the key; none is found exactly when no row does |
| Tables.LookupUnique | features/inventory/inventoryService.ts:99-106 | with unique keys the lookup finds the one row with the key |
| Tables.UpsertHit | features/inventory/inventoryService.ts:110-115 | after `INSERT … ON CONFLICT DO UPDATE` the key holds the new row |
| Tables.UpsertFrame | features/inventory/inventoryService.ts:110-115 | an upsert changes no other key |
| Tables.UpsertUnique | features/inventory/inventoryService.ts:110-115 | an upsert keeps the keys unique |
| Tables.UpsertTwice | features/inventory/inventoryService.ts:110-115 | two upserts of one key are the second one alone |
| Store.CreateInventory | features/inventory/inventoryService.ts:47-56 | a new session under a fresh id holds the trimmed name and description; no other session or line changes |
| Store.RenameInventory | features/inventory/inventoryService.ts:303-310 | an existing session gets the trimmed name and description and keeps its creation time; an unknown id changes nothing |
| Store.GetItem | features/inventory/inventoryService.ts:99-106 | the line of (session, trimmed code), or none exactly when there is none |
| Store.SetItemCantidad | features/inventory/inventoryService.ts:108-116 | afterwards the key holds exactly the given quantity and time; every other key is unchanged; keys stay unique |
| Store.AddToItemCantidad | features/inventory/inventoryService.ts:118-123 | the key holds max(0, old + delta), a missing line counting 0; other keys are unchanged |
| Store.AccumulateAdditive | features/inventory/inventoryService.ts:118-123 | adding a then b equals adding a + b when neither step floors |
| Store.AccumulateFloors | features/inventory/inventoryService.ts:118-123 | the floor at 0 is applied per step: -1 then +1 from 0 gives 1, not 0 |
| Store.RemoveItem | features/inventory/inventoryService.ts:125-131 | the key has no line afterwards; every other key is unchanged |
| Store.GetVtoItem | features/inventory/inventoryService.ts:149-160 | a line of (session, trimmed code, date) of any lot, or none exactly when there is none |
| Store.GetVtoItemEmptyLot | features/inventory/inventoryService.ts:149-160 | when every lot is empty, the line found is the one keyed with lot "" |
| Store.UpsertVto | features/inventory/inventoryService.ts:170-172 | an expiry upsert sets its key, changes no other key, keeps keys unique and keeps lots empty |
| Store.SetVtoItemCantidad | features/inventory/inventoryService.ts:162-175 | the key (session, code, date, "") holds exactly the quantity; no other key, and so no other date, changes |
| Store.AddToVtoItemCantidad | features/inventory/inventoryService.ts:177-187 | the key (session, code, date, "") holds max(0, old + delta); no other date changes |
| Store.SetVtoItem | features/inventory/inventoryService.ts:190-204 | the key uses the trimmed lot and holds exactly the quantity; no other key changes |
| Store.SetVtoItemTrimsLot | features/inventory/inventoryService.ts:197-201 | a lot and its trimmed form write the same line |
| Store.SetVtoItemEmptyLot | features/inventory/inventoryService.ts:190-204 | with the empty lot, `setVtoItem` is `setVtoItemCantidad` |
| Store.GetVtoItemsByEAN | features/inventory/inventoryService.ts:225-239 | exactly the code's lines of the session, and only if the article exists (the join); ordered by date, none lost |
| Store.ConsolidateVtoByEAN | features/inventory/inventoryService.ts:241-267 | afterwards every line of the code has the kept date, (code, date, "") holds the quantity, and other sessions and codes are unchanged |
| Store.ConsolidateLeavesOneRow | features/inventory/inventoryService.ts:241-267 | with unique keys and empty lots, exactly one line of the code remains |
| Store.DeleteInventory | features/inventory/inventoryService.ts:312-324 | the session and all its plain and expiry lines are gone; every other session and its lines are unchanged |
| Stats.ItemsCant | features/inventory/inventoryService.ts:282 | the number of distinct codes among the session's plain lines, which is at most the number of those lines |
| Stats.ItemsVto | features/inventory/inventoryService.ts:283 | the number of distinct codes among the session's expiry lines, which is at most the number of those lines |
| Stats.ItemsCantCountsLines | features/inventory/inventoryService.ts:282 | with unique keys, the distinct count is the number of lines |
| Stats.UltimaModificacion | features/inventory/inventoryService.ts:284-290 | the latest time of the session's lines in either table, or the creation time when it has none |
| Stats.StatsOf | features/inventory/inventoryService.ts:294-300 | `items` is the sum of the two distinct counts |
| Stats.InventoriesWithStats | features/inventory/inventoryService.ts:277-301 | one entry per session, newest modification first |
| Stats.SummaryRows | features/inventory/inventoryService.ts:277-301 | the entries are exactly the statistics of the sessions |
| Text.Trim | app/inventory/expiry.tsx:35 | the trimmed text is a slice of the input with no whitespace at either end |
| Text.TrimFixpoint | app/inventory/expiry.tsx:35 | trimming changes nothing exactly when no end is whitespace |
| Text.NormalizeCode | app/inventory/expiry.tsx:35 | the trimmed code, less one leading apostrophe exactly when it had one |
| Text.NormalizeCodeStripsOnce | app/inventory/active.tsx:19-23 | only one apostrophe is removed: "''7790" gives "'7790" |
| Text.StripLeadingZeros | features/inventory/scale.ts:29 | `String(Number(digits))`: same value, canonical form |
| Text.NumberToStringStripsZeros | features/inventory/scale.ts:29 | writing the number back equals dropping the leading zeros |
| Text.NatToStringRoundTrip | features/inventory/scale.ts:29 | reading a written number gives it back |
| Text.CanonicalDigitsRoundTrip | features/inventory/scale.ts:29 | writing the value of canonical digits gives them back |
| Text.Pad2 | features/inventory/exportInventory.ts:16 | two digits for values below 100, reading back as the value |
| Text.ParseQuantity | app/inventory/expiry.tsx:200 | text without a comma is read by `Number` unchanged |
| Text.ParseQuantityCommaAsPoint | app/inventory/expiry.tsx:200 | for any digits `ip` and `fp`, "ip,fp" reads as "ip.fp" does: ip + fp / 10^len(fp), and a lone comma is not a number |
| Text.ParseQuantityDecimalComma | app/inventory/expiry.tsx:200 | "1,5" reads as 1.5 |
| Text.ParseQuantitySecondCommaIsNaN | app/inventory/active.tsx:75 | only the first comma is replaced: "1,5,0" is not a number |
| Text.ParseNumberOfDigits | app/inventory/expiry.tsx:200 | a digit string reads as its value |
| Resolver.ScaleSaveCode | app/inventory/expiry.tsx:88-93 | a ticket is saved under its base code when the catalog holds it, else under the found article's code |
| Resolver.ScaleBranch | app/inventory/expiry.tsx:82-97 | the scale branch answers exactly when the ticket decodes and its PLU finds an article; the suggested quantity is the ticket's weight |
| Resolver.PluPackedBranch | app/inventory/expiry.tsx:101-104 | the packed branch answers exactly when the last-five-digit PLU finds an article; that article's code, no quantity |
| Resolver.ResolveInput | app/inventory/expiry.tsx:76-109 | on the normalised code: the scale branch's answer when it has one, else the PLU-packed branch's, else the exact-code lookup with no quantity; the article found is in the catalog, and without one the normalised code is saved with no quantity |
| Resolver.NotFoundIffEveryBranchFails | app/inventory/expiry.tsx:76-109 | no article exactly when the scale branch, the packed branch and the direct lookup all fail |
| Resolver.SuggestedQtyIsWeight | app/inventory/expiry.tsx:95 | a suggested quantity is the decoded weight, in [0, 100) kg |
| Resolver.ResolvedCodeIsInCatalog | app/inventory/expiry.tsx:76-109 | whenever an article is found, the code saved is a code of the catalog |
| Resolver.PlainCodeResolution | app/inventory/expiry.tsx:107-108 | a code of neither dialect is looked up as itself and saved as itself, found or not |
| Resolver.ScaleScenario | app/inventory/expiry.tsx:82-97 | with a base-code article, a ticket saves the base code under the intended rule, but the article's own code under the rule as written |
| PlainFlow.Decide | app/inventory/active.tsx:73-123 | refusals in order (empty code, bad quantity, unknown article), then conflict exactly when the session has the code, else insert |
| PlainFlow.HandleAgregar | app/inventory/active.tsx:73-89 | on the typed text: an empty normalised code, then a quantity that does not read as a finite number above 0, then a code missing from the catalog are refused; otherwise the normalised code and the read quantity go on, as a conflict exactly when the session has a line for the code |
| PlainFlow.Apply | app/inventory/active.tsx:91-122 | a refusal or "Cancelar" changes nothing; "Sumar" leaves the stored quantity plus the new one, floored at 0; "Reemplazar" and a fresh code set exactly the quantity; other keys unchanged |
| PlainFlow.ApplyKeepsNonNegative | app/inventory/active.tsx:91-122 | no answer stores a negative quantity |
| PlainFlow.SumAddsToExisting | app/inventory/active.tsx:100-106 | "Sumar" stores the existing quantity plus the new one |
| PlainFlow.LiteralLookupOnly | app/inventory/active.tsx:86 | the decision sees the catalog only through the literal-code lookup |
| PlainFlow.AcceptsAnyPositiveQuantity | app/inventory/active.tsx:73-89 | every finite quantity above 0 of an article found is accepted as typed: there is no whole-number gate |
| PlainFlow.NoFractionalGate | app/inventory/active.tsx:73-123 | "1,5" of any article found is accepted as 1.5, with no confirmation |
| PlainFlow.CountingScenario | app/inventory/active.tsx:73-123 | unknown code refused; first add inserts 5; a second add of 3 conflicts; "Sumar" gives 8 and "Reemplazar" 3 |
| ExpiryFlow.HasDecimalsIffNotWhole | app/inventory/expiry.tsx:40 | a quantity has decimals exactly when no integer equals it, and then it lies strictly between its floor and the next integer |
| ExpiryFlow.HandleAdd | app/inventory/expiry.tsx:198-219 | refusals in order (code, quantity, missing date, date not after today, unknown article); a non-weighable article with a fractional quantity asks for confirmation, anything else proceeds |
| ExpiryFlow.AddOrConsolidate | app/inventory/expiry.tsx:221-234 | same date first; else other dates with their sum and earliest date; else a fresh insert |
| ExpiryFlow.AnswerDecimal | app/inventory/expiry.tsx:210-216 | "Cancelar" on the decimal confirmation writes nothing; "Continuar" goes on as `addOrConsolidate`: a fresh code is inserted, a same-date answer touches that date only; keys stay unique and lots empty |
| ExpiryFlow.Resolve | app/inventory/expiry.tsx:123-196 | each answer as a write: at the same date "Sumar" stores max(0, old + new) and "Reemplazar" the new quantity, touching that date only; other dates consolidate; fresh inserts; "Cancelar" changes nothing; keys stay unique and lots empty |
| ExpiryFlow.KeepEarliestLeavesOneLine | app/inventory/expiry.tsx:174-181 | "keep earliest" leaves one line: the sum plus the new quantity, at the earlier of the earliest and the new date |
| ExpiryFlow.ReplaceLeavesOneLine | app/inventory/expiry.tsx:184-191 | "replace" leaves one line: the new quantity at the new date |
| ExpiryFlow.SameDateKeepsOtherDates | app/inventory/expiry.tsx:123-149 | a same-date answer leaves every other date of the code untouched |
| ExpiryFlow.ExpiryScenario | app/inventory/expiry.tsx:198-234 | 4 at D1 inserted; 2 at a later D2 finds D1; "keep earliest" leaves (D1, 6) |
| Slug.DropRun | features/catalog/catalogService.ts:30-33 | a suffix of the input; every character dropped is in the class, and the first one kept is not |
| Slug.ReplaceRuns | features/catalog/catalogService.ts:30-31 | never longer than the input, and it holds only '_' and characters of the input |
| Slug.ReplaceRunsLeavesNoSep | features/catalog/catalogService.ts:30-31 | no character of the replaced class survives |
| Slug.ReplaceRunsKeeps | features/catalog/catalogService.ts:30-31 | every character outside the class other than '_' is kept, in order |
| Slug.ReplaceRunsOfRun | features/catalog/catalogService.ts:30-31 | a non-empty run of the class becomes a single '_' |
| Slug.ReplaceRunsAppend | features/catalog/catalogService.ts:30-31 | cutting where no run is split, the replacement of the whole is the replacements of the parts |
| Slug.DropLeading | features/catalog/catalogService.ts:33 | only '_' is removed, only from the front, and the result does not start with '_' |
| Slug.DropTrailing | features/catalog/catalogService.ts:33 | only '_' is removed, only from the back, and the result does not end with '_' |
| Slug.TrimUnderscores | features/catalog/catalogService.ts:33 | the infix of the input that starts after its leading '_', with only '_' after it; it neither starts nor ends with '_' |
| Slug.ToSlug | features/catalog/catalogService.ts:27-33 | only [a-z0-9_], never '_' at either end |
| Slug.SlugFixpoint | features/catalog/catalogService.ts:27-33 | a header already in slug form (lower-case letters, digits, single '_' inside) is its own slug |
| Headers.SlugRowLastWins | features/catalog/catalogService.ts:46-52 | a slugged header holds the cell of the last column that slugs to it |
| Headers.SlugRowKeys | features/catalog/catalogService.ts:46-52 | the keys are exactly the slugged headers |
| Headers.RawValue | features/catalog/catalogService.ts:59 | a header written exactly as the spelling finds its cell |
| Headers.PickFrom | features/catalog/catalogService.ts:55-62 | the cell of the first spelling that resolves, slugged key before raw key; nothing exactly when none does |
| Headers.PickNoneIff | features/catalog/catalogService.ts:55-62 | nothing is picked exactly when no spelling resolves |
| Headers.PickPrefersFirstSpelling | features/catalog/catalogService.ts:36-43 | a header slugging to the first spelling wins wherever it stands |
| Headers.SluggedHeaderResolves | features/catalog/catalogService.ts:36-62 | a header slugging to any accepted spelling makes the column resolvable |
| Headers.ValidateHeaders | features/catalog/catalogService.ts:64-74 | no rows pass; otherwise it fails exactly when a required column is missing in the first row, listing every missing one in order |
| CatalogImport.NormalizeEan | features/catalog/catalogService.ts:8-13 | a missing cell gives ""; otherwise the trimmed cell less one leading apostrophe |
| CatalogImport.NormalizeUnits | features/catalog/catalogService.ts:15-19 | always above 0: the parsed value when it is finite and positive, else 1 |
| CatalogImport.NormalizeBool01 | features/catalog/catalogService.ts:21 | 1 exactly when the trimmed cell is "1", else 0 |
| CatalogImport.NormalizeRow | features/catalog/catalogService.ts:87-95 | the article of one row: codes and texts picked and normalised; units per case are `normalizeUnits` of the picked cell, above 0; both flags are `normalizeBool01` of their picked cells, 0 or 1 |
| CatalogImport.KeptArticles | features/catalog/catalogService.ts:87-98 | exactly the normalised rows with a code and a description |
| CatalogImport.ParseRows | features/catalog/catalogService.ts:84-98 | no rows give no articles; a header error is raised exactly when validation fails; otherwise the kept normalised rows |
| CatalogImport.Chunks | features/catalog/catalogService.ts:166-170 | batches of 800, the last possibly shorter, concatenating back to the rows in order |
| CatalogImport.ChunksUnique | features/catalog/catalogService.ts:166-170 | any such slicing is the one `Chunks` builds |
| CatalogImport.SliceBatches | features/catalog/catalogService.ts:166-170 | the batching loop computes `Chunks` |
| CatalogImport.InsertBatch | features/catalog/catalogService.ts:102-137 | a batch commits exactly when no code clashes with the table or within the batch; a clash rolls the batch back |
| CatalogImport.InsertBatches | features/catalog/catalogService.ts:167-170 | all batches commit exactly when all codes are unique, leaving the rows appended; otherwise the table holds a whole number of leading batches; codes stay unique |
| CatalogImport.InsertAllFailurePrefix | features/catalog/catalogService.ts:157-170 | a failed import leaves a proper prefix of the rows |
| CatalogImport.ImportAsWritten | features/catalog/catalogService.ts:140-172 | a header error is reported exactly when parsing fails and keeps the previous catalog; any other outcome leaves codes unique |
| CatalogImport.ImportAtomic | features/catalog/catalogService.ts:140-172 | all or nothing: the rows replace the catalog exactly when all go in, else the catalog is kept |
| CatalogImport.AsWrittenSuccess | features/catalog/catalogService.ts:171 | on success the table is the parsed rows and their number is reported |
| CatalogImport.AsWrittenFailureKeepsPrefix | features/catalog/catalogService.ts:157-170 | on an insert error the previous catalog is already gone |
| CatalogImport.AtomicAgreesOnUniqueCodes | features/catalog/catalogService.ts:140-172 | with unique codes the two imports agree |
| CatalogImport.DuplicateCodeEmptiesCatalog | features/catalog/catalogService.ts:157-170 | two rows with one code empty the catalog as written; the atomic import keeps it |
| Export.FmtDateFields | features/inventory/exportInventory.ts:17-20 | the date text reads back as day, month and year |
| Export.Upb | features/inventory/exportInventory.ts:59 | units per package are the stored value when it is at least 1, and 1 when it is missing or below 1 |
| Export.Bultos | features/inventory/exportInventory.ts:61 | packages are the floor of quantity over units per package, never negative for a non-negative quantity |
| Export.ToSheetRow | features/inventory/exportInventory.ts:58-72 | a row copies the line, with the clamped units per package and the whole packages; the entry time is formatted when present and non-zero, else empty; the expiry column is empty for counts and the formatted date for expiry |
| Export.Cells | features/inventory/exportInventory.ts:62-71 | the eight columns in order, the expiry date last |
| Export.MapRows | features/inventory/exportInventory.ts:58 | one row per line, in order |
| Export.ExportSession | features/inventory/exportInventory.ts:37-104 | an empty session fails with its message; otherwise the kind's sheet with one row per line, and a summary holding the session id, its name and note ("" without the session), its creation time formatted ("" when missing or 0), the export time, the row count and the type; the file name encodes kind, session and time |
| Export.ExpiryColumnLast | features/inventory/exportInventory.ts:132-146 | the last cell is the expiry date, empty exactly for the plain export |
| Export.FileNameRoundTrip | features/inventory/exportInventory.ts:94-97 | the file name reads back as kind, session id and minute |
| Scanner.CanHandle | features/inventory/scanner/useScanner.ts:17-22 | handled exactly when at least the throttle has passed; only then does the mark move |
| Scanner.HandledSpaced | features/inventory/scanner/useScanner.ts:17-22 | handled reads are at least one throttle apart, and from the starting mark |
| Scanner.HandledWindow | features/inventory/scanner/useScanner.ts:17-22 | k steps of handled reads span at least k throttles |
| Scanner.OnePerBurst | features/inventory/scanner/useScanner.ts:17-22 | reads within one throttle of the first are handled at most once |
| Scanner.HandledFrom | features/inventory/scanner/useScanner.ts:17-22 | every handled read is one of the reads |
| Scanner.MarkIsLastHandled | features/inventory/scanner/useScanner.ts:20 | the mark is the last handled read, or the start mark |
| Scanner.HandledAppend | features/inventory/scanner/useScanner.ts:17-22 | reads split anywhere are handled piecewise from the intermediate mark |
| Scanner.HandleAll | features/inventory/scanner/useScanner.ts:5-22 | from mark 0, the handled reads and the final mark, at least one throttle apart |

## Left out

- I/O and foreign libraries are not modelled: SQLite, XLSX parsing and writing, the file system, the document picker and sharing. Tables are plain sequences. The spreadsheet is a list of header/cell pairs, and each cell is its text.
- Cells are text: a numeric or boolean spreadsheet cell is taken as the text `String(...)` gives it. `null` cells do not occur, because the sheet is read with a default of "".
- `Number(...)` is modelled for blanks, an optional sign, digits with an optional decimal point, and "Infinity". Exponents, hexadecimal and the other exotic forms read as not-a-number.
- JavaScript floating point is not modelled. Quantities and weights are exact reals, so rounding in `/ 10000`, in sums and in `Math.floor` is not modelled.
- Time is a parameter. The local calendar is a function `local: int -> Stamp`, and "today" and "now" are integers. The export reads the clock once where the source reads it twice (summary date and file name).
- Export.FileNameRoundTrip: requires a valid calendar stamp (month 1-12, day 1-31, hour below 24, minute below 60), because `pad2` of a wider value gives more than two digits.
- `stripDiacritics` covers the accented letters of Spanish. `toLowerCase` covers ASCII. Other Unicode decompositions and case mappings are not modelled.
- The key order of `Object.keys`, which lists integer-like headers first, is not modelled. Headers are taken in column order.
- Catalog.FindArticlesByCodigo: the order of the result (`ORDER BY descripcion COLLATE NOCASE`, features/inventory/inventoryService.ts:93) is not modelled; the contract states which articles are found, not their order.
- SQL ordering ties and `COLLATE` are not modelled. Export lines are taken in the order the query returns them. The order of lines with the same date in `getVtoItemsByEAN` is not specified.
- `removeVtoItem`, `getInventoryItems`, `getVtoItems`, `getInventories` and `getInventoryById` are left out. They are a delete by row id and listing queries, and no decision depends on them.
- The `ultimo_update` time written by the stores is kept as the line's `ts` only.
- The preview on blur (`previewByInput`) is left out. It copies `resolveInput`'s result into the form.
- Camera, permissions (`ensurePermission`), haptics, navigation and all rendering are left out.

## Findings

| source | as written | input that shows it | evidently intended | confidence | as-written member | corrected member |
|---|---|---|---|---|---|---|
| features/inventory/scale.ts:55 | the base code is prefix + "0" + five PLU digits + "000000", 14 characters | "2100510006657" gives "21000510000000"; applied again it gives "21000051000000" | the 13-character "2100510000000" of the comment, which is its own base code | high, not executed | Scale.AsWrittenBaseMismatch | Scale.IntendedBaseIdempotent |
| features/catalog/catalogService.ts:157-170 | the delete of the old catalog commits before the batches, and a batch that hits the `ean` primary key rolls back alone | two parsed rows with one code in the first batch leave the catalog empty | replace the catalog all or nothing, keeping the previous catalog on an insert error | medium, not executed | CatalogImport.DuplicateCodeEmptiesCatalog | CatalogImport.ImportAtomic |

The resolver takes the base rule as a parameter (`Scale.BaseScaleEAN`). `Resolver.ScaleScenario` shows that the two rules save different codes for the same ticket. The import keeps both versions: `CatalogImport.ImportAsWritten` models the code, and `CatalogImport.ImportAtomic` is the corrected replacement. `CatalogImport.AtomicAgreesOnUniqueCodes` shows that the two agree whenever the codes are unique.
