# Nimbus demo-data import and seed: model and proofs

A Dafny model of three linked parts of Nimbus POS: the CSV reader of the demo-data pipeline, the
pack validator with the importer that relies on it, and the seed engine. Money is in whole cents
(or whole units of 10^-scale), text is a sequence of characters, a thrown exception is an error
result, and the database is the state of store objects whose methods update it in place.

## What is proved

**Reading files** (`CsvParser`, `CsvLaws`, `CsvLines`, `CsvSplits`, `CsvTable`, `CsvReaders`). The one-pass
parser refines a machine without lookahead. From that follow the print/parse round trip for any
rows and any writing style, compositionality with its exact condition, rejection as quote parity,
the exact image of the parser, and the exact texts on which the older line-at-a-time reader agrees.

**Validating a pack** (`Keys`, `Money`, `Validator`, `ValidatorLaws`, `PackMeaning`, `KeyMixing`, `Scaffold`). The
map-accumulating checks are equivalent to sums over the rows by branch and order number exactly when no
key mixes two orders; the verdict does not depend on row order; an accepted ledger balances over every set
of journals; the packs that pass, and those that also pass the older checker, are
characterised exactly in the cells of their files; and every error is that of the first check that fails.

**Importing it** (`Tables`, `OwnedRows`, `Upserts`, `SalesImport`, `SalesSuccess`, `SalesLaws`, `SalesRuns`,
`SalesOutcome`, `Ledger`, `LedgerLaws`, `LedgerOutcome`, `Balances`, `DemoImport`). Acceptance implies facts about
the stored database over every history of runs: closed orders are paid to the cent, no order is overpaid, items
make up subtotals, journal headers state the sums of their stored lines. Each of these, and the success of each
import step, has its exact condition on the store and the files. Where nothing is lost, every stored row is
spelled out field by field. No run breaks a unique key, wherever it stops. Chunked inserts are idempotent, and so
are the importer's upserts, with exact counters.

**Seeding** (`RolePermissions`, `Memberships`, `QuickPins`, `PinSeed`, `KdsTickets`). Role permissions converge from any
table and under any hand edits; each user keeps at most one default branch per organization; the PIN index
stays unique and agrees with the stored PIN hashes over every run, and who gets a listed PIN is decided exactly.

## What the code does not do

These expectations fail, and the model states exactly when.

- Compositionality of parsing fails for two texts that both have an odd number of quotes
  (`CsvLaws.Compositionality`).
- The header comparison joins names with a pipe, so a file with two expected columns merged into one
  passes it (`CsvTable.HeaderCheckAcceptsOnlyMergedColumns`).
- The line reader splits inside quotes and keeps a CR that stands alone; a CR inside quotes is no obstacle
  (`CsvSplits.ParserRefinesLineReaderIff`). The two file readers also differ on a line of blank cells only: one
  drops it, the other keeps an empty record (`CsvReaders.ReadersAgreeIff`,
  `CsvReaders.BlankCellLineSeparatesTheReaders`).
- A joined key can stand for two different pairs once a part contains the separator or puts a colon next to
  it (`Keys.PairKeyUnambiguous`). The validator then counts amounts for the wrong order, exactly when an
  order's key collects another order's charge (`KeyMixing.VerdictRightIff`); there are accepted packs whose
  order has no item (`KeyMixing.WronglyAcceptedPack`). Colon-free branch codes exclude it: order numbers may
  contain colons.
- The validator accepts items and payments for orders that are not in the pack, and does not look at refunds.
  The importer stops at such an item with the old items deleted and the payments untouched, at such a payment
  with the old payments deleted and none written, and at a refund without its payment before the hardening
  (`SalesSuccess.StrayItemStopsTheImport`, `SalesSuccess.PaymentWithoutOrderStopsTheImport`,
  `SalesSuccess.RefundWithoutPaymentStopsTheImport`, `SalesOutcome.StrayPaymentStopsTheImport`,
  `SalesOutcome.StrayRefundStopsTheHardening`, `SalesSuccess.ImportSucceedsAnywhereIff`).
- Line numbers of items are not checked. Two items on one line get one id and the second is silently left out,
  so the stored items fall short of the subtotal (`SalesRuns.RepeatedLineIsLost`).
- Order keys are joined with two colons and order ids with one, so two orders that the validator tells apart
  can get one id, and only one of them is stored (`SalesRuns.MergedOrdersAreStoredOnce`). The laws of the
  import ask for distinct ids; colon-free branch codes have them (`SalesSuccess.CleanBranchesHaveDistinctIds`).
- Orders are inserted, never updated, so an edited stored order is paid as due only if the file's payments
  happen to meet its edited status and total (`SalesLaws.ConservedIff`, `SalesRuns.EditedTotalIsNotRepaired`).
  The repository's README.md:851 calls the seed "every entity upserted"; this importer's orders are not.
- A further run does not repair every edit of the payments: one that was moved from a pack order to an
  outside order keeps its id, and the file's payment of that id is then silently left out
  (`SalesRuns.MovedPaymentIsNotRestored`, `SalesRuns.EveryRunRestoresBalance`).
- Two identical journal lines are accepted and always stop the import (`LedgerLaws.RepeatedLineStopsTheImport`).
  So does a new header whose number another organization's header has taken (`LedgerLaws.HeadersSucceedIff`).
  Two organizations whose stored headers share a number leave all lines under the last one
  (`LedgerLaws.HeaderConsistentIff`, `LedgerLaws.SharedNumberIsInconsistent`).
- An upsert whose update is not also created makes a second run change the table
  (`Upserts.UpsertsAreIdempotentIff`). No call of the importer is of that kind.
- A settlement is taken off every open document of its party, so with two open documents the sum
  outstanding is understated (`Balances.OutstandingNeverOverstates`, `Balances.PartPaymentIsCountedTwice`).
- The importer sets PINs one by one, so a list fails whose PINs are free only once all are set, such as an
  exchange between two users (`QuickPins.DistinctImportSucceedsIff`, `QuickPins.ExchangeFails`).

## Assumptions

- A row id derived by SHA-256 and a PIN lookup derived by HMAC are injective in their text; a bcrypt hash
  verifies one PIN only. All three are free constructors.
- Amounts are exact. decimal.js precision and the older checker's binary floating point are not modelled;
  rounding to two places is then the identity on amounts that were read at scale two, and is left implicit.
- `createMany` with `skipDuplicates` ignores a row that conflicts on a unique key with a stored row or an
  earlier row of the batch; `create` fails on a taken id; nothing is rolled back.
- References other than from an item, payment or refund to its order, from a refund to its payment and from any
  of these to its branch resolve: organizations, users, menu items and accounts are known. Cells that the
  validator does not read (prices, quantities, dates, JSON) are well formed. A row for which this fails stops the
  run where it stands, as a row without its order does.
- A branch code leads to one branch row, and different codes to different rows. The seed's main branch exists;
  without it the seed sets no PIN.
- The journal line direction is DEBIT or CREDIT, as the enum check enforces.

## Model

| member | source | states |
|---|---|---|
| CsvParser.ParseCsv | packages/db/prisma/demo-import.ts:168-204 | The index loop with its two lookaheads returns what a machine without lookahead returns on the whole text, and fails exactly when the text has an odd number of quotes |
| CsvParser.LfAfterEol | packages/db/prisma/demo-import.ts:186-191 | The LF of a CRLF needs no lookahead: read on its own it changes nothing |
| CsvParser.QuoteFlagIsParity | packages/db/prisma/demo-import.ts:172-182 | After any text read, the quote flag is the parity of its quote characters |
| CsvLaws.ParseFailsIffOdd | packages/db/prisma/demo-import.ts:202 | Rejection in closed form: an odd number of quotes, nothing else |
| CsvLaws.Compositionality | packages/db/prisma/demo-import.ts:174-203 | Parsing two texts joined by LF, CR or CRLF gives both lists of rows in order exactly when one of the texts has an even number of quotes, whatever stands at the seam |
| CsvLaws.LineEndsAreInterchangeable | packages/db/prisma/demo-import.ts:186-187 | Replacing a line end outside quotes by any other never changes the outcome |
| CsvLaws.RowsAreAppendOnly | packages/db/prisma/demo-import.ts:189-190 | Finished rows never influence how the rest is read |
| CsvLaws.RoundTrip | packages/db/prisma/demo-import.ts:168-204 | Rows of arbitrary cells, each quoted or bare where allowed, each row ended by any line end: parsing the text returns the rows, less the all-blank ones |
| CsvLaws.RoundTripUnterminated | packages/db/prisma/demo-import.ts:197-200 | The same when the last row has no line end |
| CsvLaws.QuotedStretchInCell | packages/db/prisma/demo-import.ts:174-185 | A quoted stretch may stand anywhere in a cell: the cell is the text before it, the text it encodes and the text after it |
| CsvLaws.ImageOfParser | packages/db/prisma/demo-import.ts:189-199 | The parser can return a list of rows exactly when no row of it is all blank |
| CsvLaws.NormalisationPreservesMeaning | packages/db/prisma/demo-import.ts:168-204 | Rewriting any accepted text with every cell quoted and LF line ends keeps its rows |
| CsvLines.ParseCsvLine | demo-data/demo-import.scaffold.ts:15-30 | The line reader's loop with its lookahead returns what the lookahead-free line machine returns, tolerating an open quote |
| CsvLines.ParserIsLineReaderOnLogicalLines | packages/db/prisma/demo-import.ts:174-203 | On every accepted text the parser is the line reader mapped over the text cut where the quote count is even, less the all-blank rows |
| CsvLines.SingleLineAgreement | demo-data/demo-import.scaffold.ts:15-30 | On one balanced line the two readers agree cell for cell |
| CsvLines.OpenQuoteIsTolerated | demo-data/demo-import.scaffold.ts:15-30 | A line with an open quote has the cells that the parser reads once the quote is closed at the end, where the parser rejects the line itself |
| CsvSplits.ParserRefinesLineReaderIff | demo-data/demo-import.scaffold.ts:35-39 | Parser refinement, exactly: splitting at LF or CRLF, reading each line and dropping the all-blank rows gives the one-pass parser's result if and only if each of these lines is balanced and holds no CR outside quotes |
| CsvSplits.QuotedLfSeparatesTheReaders | demo-data/demo-import.scaffold.ts:35-39 | Whenever the parser returns a cell with an LF in it, the line reader returns something else |
| CsvSplits.UnquotedCrSeparatesTheReaders | demo-data/demo-import.scaffold.ts:35-39 | A CR outside quotes that no LF follows, whatever else is on the line, makes the two readers differ |
| CsvSplits.LoneCrSeparatesTheReaders | demo-data/demo-import.scaffold.ts:35-39 | A lone CR between two non-blank lines makes two rows for the parser and one for the line reader |
| CsvSplits.QuotedCrIsRead | demo-data/demo-import.scaffold.ts:15-30 | A CR inside quotes on one line is read alike by both |
| CsvTable.ReadCsv | packages/db/prisma/demo-import.ts:206-226 | Success exactly on terminated, non-empty, rectangular text whose joined header is the expected one, and without expected names on every rectangular text; one record per row after the first, in order; each error names the first check that fails and the first bad row |
| CsvTable.RecordLookup | packages/db/prisma/demo-import.ts:225 | A row's record is the only one that has exactly the columns named, each with the cell under the last column of its name, a missing cell reading as empty |
| CsvTable.RecordsLoseNothingIffHeadersDistinct | packages/db/prisma/demo-import.ts:225 | Records keep every cell of every row exactly when the column names are distinct |
| CsvTable.TableRoundTrip | packages/db/prisma/demo-import.ts:206-226 | A header and rows of its width, written in any style with or without byte order mark, read back as the header and the non-blank rows and pass every check, with and without expected names |
| CsvTable.HeaderCheckAcceptsOnlyMergedColumns | packages/db/prisma/demo-import.ts:220-223 | A header row that passes the joined-text comparison and differs from the expected one has fewer columns and a pipe in a name; with equal width it is equal |
| CsvTable.MergedColumnsPass | packages/db/prisma/demo-import.ts:221 | Two expected columns merged into one pass the comparison |
| CsvReaders.ReadCsvLoosely | demo-data/demo-import.scaffold.ts:32-42 | The older file reader on trimmed text: header line, empty lines skipped, missing cells empty |
| CsvReaders.ReadersAgreeIff | demo-data/demo-import.scaffold.ts:38-41 | On text that the line reader splits rightly, with a header, the two file readers give the same records exactly when no data line consists of blank cells only |
| CsvReaders.BlankCellLineSeparatesTheReaders | demo-data/demo-import.scaffold.ts:38-41 | A data line of one comma gives a record in the older reader and none in the other |
| Keys.CutAtSeparator | packages/db/prisma/demo-import.ts:299-301 | Two joined texts with separator-free left parts are equal only if both parts are |
| Keys.JoinInjective | packages/db/prisma/demo-import.ts:299-301 | Joined keys are injective on equally long lists of parts that avoid the separator's character |
| Keys.PairKeyJoins | packages/db/prisma/demo-import.ts:299-301 | The key of two parts is the two with a double colon between them |
| Keys.PairKeyUnambiguous | packages/db/prisma/demo-import.ts:299-301 | A two-part key belongs to no other pair exactly when neither part contains the separator, the left one does not end and the right one does not start with a colon |
| Keys.AssertUnique | packages/db/prisma/demo-import.ts:332-339 | Silent exactly when all keys are distinct; otherwise the first key that occurred before |
| Keys.DistinctKeysAreDistinctTuples | packages/db/prisma/demo-import.ts:299-313 | For colon-free parts, distinct keys are distinct tuples |
| Money.AmountGrammar | packages/db/prisma/demo-import.ts:269-273 | Accepts exactly the blank cell and an optional minus, digits, and optionally a point with 1 to scale digits, with the exact value of the literal |
| Money.AmountRoundTrip | packages/db/prisma/demo-import.ts:269-273 | Printing any amount with all its places and reading it back gives the amount |
| Tables.Chunks | packages/db/prisma/demo-import.ts:326-330 | Concatenating the chunks gives the items; every chunk is non-empty and full, but perhaps the last |
| Tables.InsertInChunks | packages/db/prisma/demo-import.ts:1375-1379 | Inserting chunk by chunk gives the table of one insert; created counts the new rows and created plus skipped the items |
| Tables.InsertInTwoSteps | packages/db/prisma/demo-import.ts:1375-1376 | Inserting a batch in two parts is inserting it at once |
| Tables.InsertCoversBatch | packages/db/prisma/demo-import.ts:1376 | Every row of a batch ends up present or in conflict with a row that is |
| Tables.InsertIsIdempotent | packages/db/prisma/demo-import.ts:1375-1379 | Inserting the same batch again adds nothing |
| Upserts.TableStore.UpsertWithWhere | packages/db/prisma/demo-import.ts:508-513 | One upsert: skipped, updated or created, with the new table; a taken id fails and changes nothing |
| Upserts.TableStore.UpsertRows | packages/db/prisma/demo-import.ts:1225-1226 | Each upsert is counted once; created counts the distinct keys that were new; skipped and updated exclude each other by mode; a failed run leaves exactly what the upserts before the failing one made |
| Upserts.UpsertsSucceedIff | packages/db/prisma/demo-import.ts:508-513 | On any table a file of upserts goes through, in either mode, exactly when every id that an upsert of a new key creates is neither stored nor created by an earlier one |
| Upserts.UpsertClosedForm | packages/db/prisma/demo-import.ts:508-513 | After any file of upserts each key keeps the id it started with; a stored row is overlaid with all updates aimed at it, a new one with those after its first, in order |
| Upserts.SkipModeClosedForm | packages/db/prisma/demo-import.ts:510 | In skip mode stored rows stay as they are and new keys get their first creation |
| Upserts.UpsertsAreIdempotentIff | packages/db/prisma/demo-import.ts:508-513 | A second run of any file succeeds and creates nothing; it changes nothing always in skip mode, and when updating exactly if every new key is created with each field of its first update that no later one overwrites |
| Upserts.ThirdRunChangesNothing | packages/db/prisma/demo-import.ts:508-513 | After two runs of any file nothing changes any more |
| Upserts.CoherentUpsertsAreIdempotent | packages/db/prisma/demo-import.ts:1592-1603 | Upserts that create all that they update, as the importer's do, are idempotent on every table, with repeated keys and with updates of only some of the created fields |
| Upserts.OneStaleFieldIsNotIdempotent | packages/db/prisma/demo-import.ts:508-513 | One upsert of a new key that updates a field it does not create with that value changes the table on the second run |
| Upserts.ExistingRowsAreKept | packages/db/prisma/demo-import.ts:497-513 | Existing rows keep their ids; in skip mode they keep everything |
| Upserts.ByIdAlwaysSucceeds | packages/db/prisma/demo-import.ts:497-506 | Upserts by row id never fail and create all that they update, so they are idempotent |
| Validator.Accumulate | packages/db/prisma/demo-import.ts:429-437 | One pass over rows into a map: every key ends with its former amount plus the sum of its rows; stops exactly on an unreadable amount, and names the first |
| Validator.CheckKeys | packages/db/prisma/demo-import.ts:345-358 | Silent exactly when the natural keys of all twelve files are unique and the required cells filled; otherwise the error is about the first file at fault and its first row at fault |
| Validator.CheckRows | packages/db/prisma/demo-import.ts:383-399 | Silent exactly when order amounts are readable and mobile-money rows are pending and provider-gated; otherwise the error names the first unreadable order, or an unsafe payment once all orders are readable |
| Validator.CheckCharges | packages/db/prisma/demo-import.ts:429-447 | Silent exactly when each order's items and modifiers sum to its subtotal and subtotal + tax - discount is its total; otherwise the error names the first unreadable amount or the first order for which that fails |
| Validator.CheckPayments | packages/db/prisma/demo-import.ts:449-460 | Silent exactly when closed orders are paid to the cent and none is overpaid; otherwise the error names the first unreadable amount or the first such order |
| Validator.TallyJournals | packages/db/prisma/demo-import.ts:462-469 | The running map of debit and credit equals filter-and-sum for every journal number, in order of first appearance |
| Validator.CheckJournals | packages/db/prisma/demo-import.ts:462-474 | Silent exactly when every line is a readable debit or credit and every journal balances; otherwise the error names the first line that is not, or the first journal that does not |
| Validator.CheckDocuments | packages/db/prisma/demo-import.ts:476-491 | Silent exactly when each bill's or invoice's lines sum to its subtotal; otherwise the error names the first unreadable amount or the first document for which they do not |
| Validator.ValidatePack | packages/db/prisma/demo-import.ts:341-495 | Silent exactly on the packs that meet all the modelled checks; otherwise the error is that of the first failing check, about the first row at fault in it |
| ValidatorLaws.KeyedSumIsOrderSum | packages/db/prisma/demo-import.ts:429-437 | Summing under the joined key is summing over the rows of the order, unless the key collects another order's charge |
| ValidatorLaws.PaymentKeyIdentifies | packages/db/prisma/demo-import.ts:311-313 | For colon-free fields payments share a natural key exactly when they agree in order, amount, method and reference, the transaction id coming first |
| ValidatorLaws.SalesAcceptedIffOrdersSound | packages/db/prisma/demo-import.ts:429-460 | Soundness and completeness: unless a key mixes orders, the checks pass exactly when all amounts are readable and every order is sound, stated as filter-and-sum by branch and number |
| KeyMixing.KeyedSumsRightIff | packages/db/prisma/demo-import.ts:429-437 | The sum under an order's key is the order's sum at all amounts exactly when no charge of another order has that key |
| KeyMixing.VerdictRightIff | packages/db/prisma/demo-import.ts:429-460 | With unique order keys, the verdict on a pack's orders and charges is right at all amounts exactly when no order's key collects the charge of another |
| KeyMixing.WronglyAcceptedPack | packages/db/prisma/demo-import.ts:429-437 | A pack that passes every check although its only order has no item of its own |
| ValidatorLaws.AcceptedLedgerBalancesEverywhere | packages/db/prisma/demo-import.ts:470-474 | An accepted ledger balances under every journal number |
| ValidatorLaws.AnyUnionOfJournalsBalances | packages/db/prisma/demo-import.ts:462-474 | Debits equal credits over any set of journals, so over the whole ledger |
| ValidatorLaws.VerdictIgnoresRowOrder | packages/db/prisma/demo-import.ts:341-495 | The verdict is the same for any order of the rows in any file |
| PackMeaning.AcceptsIffSound | packages/db/prisma/demo-import.ts:341-495 | The validator in the terms of its files: with colon-free key fields it accepts exactly the packs with distinct rows, gated mobile money, readable amounts, and sums that agree by order, by journal and by document |
| PackMeaning.KeysUniqueIffRowsDistinct | packages/db/prisma/demo-import.ts:345-358 | With colon-free key fields, the keys of the twelve files are unique and filled exactly when no file has two rows that agree in the key's fields and no slug or email is empty |
| PackMeaning.LedgerAcceptedIffSound | packages/db/prisma/demo-import.ts:462-474 | Journals pass exactly when every line is a readable DEBIT or CREDIT and each journal's debits and credits sum to the same, in the fields of the rows |
| PackMeaning.DocumentsAcceptedIffSound | packages/db/prisma/demo-import.ts:476-491 | Bills and invoices pass exactly when all line totals and subtotals are readable and the lines with a document's number sum to its subtotal, in the fields of the rows |
| PackMeaning.KeyedSumIsFilter | packages/db/prisma/demo-import.ts:429-437 | A running total under a key is the sum over the rows that have it |
| Scaffold.CheckSubtotals | demo-data/demo-import.scaffold.ts:68-79 | Passes exactly when the amounts read are readable and each order's items are within a cent of its subtotal |
| Scaffold.CheckJournalsLoosely | demo-data/demo-import.scaffold.ts:81-91 | Passes exactly when debit and credit amounts are readable and each journal is within a cent of balance |
| Scaffold.DryRun | demo-data/demo-import.scaffold.ts:58-91 | The older checker as a whole, against the sums and uniqueness it stands for |
| Scaffold.LooselyAcceptsIffSound | demo-data/demo-import.scaffold.ts:58-91 | The older checker in the terms of its files: with colon-free codes it accepts exactly the packs whose slugs, branches, emails and orders are distinct, whose amounts that it reads are filled in, and whose orders and journals are within a cent |
| Scaffold.StrictPassesLooseIff | demo-data/demo-import.scaffold.ts:63-91 | An accepted pack with colon-free codes passes the older checker exactly when no amount that one reads is blank and no order's modifiers exceed a cent |
| Scaffold.StrictImpliesLoose | demo-data/demo-import.scaffold.ts:63-91 | Without modifier rows and blank amounts, strict acceptance implies loose acceptance |
| OwnedRows.RecreatedSum | packages/db/prisma/demo-import.ts:1387-1442 | Deleting the rows of some orders and creating the file's, ids that are taken being ignored, leaves each of the orders with what the file has under its key, less the rows whose id another order holds or an earlier row of the file has |
| SalesImport.BuildIndex | packages/db/prisma/demo-import.ts:1380-1384 | The loop over imported orders builds the index from branch code and number to order id |
| SalesImport.SalesStore.ImportSales | packages/db/prisma/demo-import.ts:1352-1487 | The stored orders, items and payments become exactly what the specification of the whole step gives, with the failing item, payment and refund rows and what each leaves behind; counters account for every row; the hardening count is that of the rows it changes |
| SalesSuccess.ImportSucceedsIff | packages/db/prisma/demo-import.ts:1389-1464 | Where the pack's orders are absent or at their address, the import goes through exactly when every item and payment is for an order of the pack and every refund for an order and a payment of it; it gets to writing the payments whatever the refunds are |
| SalesSuccess.WrittenRefs | packages/db/prisma/demo-import.ts:1432-1447 | A refund finds its payment exactly when some payment of the file goes by the reference: its transaction id, else provider reference, else its order, method and amount joined |
| SalesSuccess.ImportSucceedsAnywhereIff | packages/db/prisma/demo-import.ts:1376-1464 | On any store the import goes through exactly when the order of each item, payment and refund was stored under its key with an id of the pack, or is added without a stored order in its way, and refunds name payments of the file |
| SalesSuccess.StrayItemStopsTheImport | packages/db/prisma/demo-import.ts:1386-1396 | Any accepted pack stays accepted with one more item for a missing order, and its import then stops with the old items deleted and the payments untouched |
| SalesSuccess.PaymentWithoutOrderStopsTheImport | packages/db/prisma/demo-import.ts:1415-1425 | A pack with a payment for a missing order is accepted, and its import stops on every store |
| SalesSuccess.RefundWithoutPaymentStopsTheImport | packages/db/prisma/demo-import.ts:1448-1460 | A pack with a refund of a missing payment is accepted, and its import stops on every store before the hardening |
| SalesSuccess.CleanBranchesHaveDistinctIds | packages/db/prisma/demo-import.ts:1359 | With unique order keys, colon-free branch codes give distinct order ids |
| SalesSuccess.IndexFindsPackOrders | packages/db/prisma/demo-import.ts:1380-1384 | The index holds exactly the keys of the pack's orders, each with the order's own id |
| SalesLaws.StoredItemsOfOrder | packages/db/prisma/demo-import.ts:1386-1409 | After the import an order's stored items sum to what the file has under its key, less the items whose id an outside order holds or an earlier item has, whatever was stored before |
| SalesLaws.StoredPaymentsOfOrder | packages/db/prisma/demo-import.ts:1411-1442 | The same for its stored payments |
| SalesLaws.OtherOrdersKeepTheirRows | packages/db/prisma/demo-import.ts:1387-1412 | An order outside the pack keeps the sums of its items and payments |
| SalesLaws.ConservedIff | packages/db/prisma/demo-import.ts:1352-1442 | From any store with edited or unedited pack orders: every pack order ends paid as due exactly when each order as stored before, or else as filed, is paid as due by the file's payments that arrive |
| SalesLaws.ItemizedIff | packages/db/prisma/demo-import.ts:1386-1409 | From any such store: stored items and the file's modifiers make up every stored subtotal exactly when the arriving items do so for each order as stored before, or else as filed |
| SalesLaws.PaymentsConserved | packages/db/prisma/demo-import.ts:1352-1442 | An accepted pack, from any store whose pack orders are absent or unaltered: every closed order is paid to the cent and none is overpaid exactly when the payments lost are not needed; items make up every subtotal exactly when the lost ones sum to nothing; the store is fit for the next run in any case |
| SalesRuns.MovedPaymentIsNotRestored | packages/db/prisma/demo-import.ts:1412-1439 | Moving a stored payment of a closed pack order to an outside order is an edit that the next run does not repair |
| SalesRuns.EditedTotalIsNotRepaired | packages/db/prisma/demo-import.ts:1376 | Nor is the edit of a closed order's total |
| SalesRuns.RepeatedLineIsLost | packages/db/prisma/demo-import.ts:1394-1406 | Of two items on one line of an order the second is left out, so the order's stored items fall short of its subtotal after every run |
| SalesRuns.RepeatedLineIsAccepted | packages/db/prisma/demo-import.ts:429-442 | Such a pack passes every check |
| SalesRuns.MergedOrdersAreStoredOnce | packages/db/prisma/demo-import.ts:1359-1376 | Two orders with different keys and one id are accepted, and only the first is stored |
| SalesRuns.EveryRunRestoresBalance | packages/db/prisma/demo-import.ts:1386-1442 | For an accepted pack whose items and payments have their orders, over any history of runs and edits of the stored items and payments: the last run restores the balance of all pack orders exactly when the payments it finds leave the needed ids free, and their items exactly when none are missing; earlier edits do not matter |
| SalesRuns.RerunRestoresSales | packages/db/prisma/demo-import.ts:1352-1442 | After a run that went through, a further run restores orders, items and payments whatever was done to the items and payments of the imported orders, and run on its own result changes nothing |
| SalesLaws.HardeningKeepsSums | packages/db/prisma/demo-import.ts:1471-1486 | The mobile-money hardening changes no order's sum |
| SalesRuns.HardeningOnlyTouchesOthers | packages/db/prisma/demo-import.ts:1471-1487 | On any store, the rows the hardening counts are all rows kept from other orders; none of an accepted pack's; and none is left afterwards |
| SalesRuns.ImportKeepsUniqueKeys | packages/db/prisma/demo-import.ts:1375-1442 | No run, on any store and pack and wherever it stops, stores two orders of one id or one branch and number, nor two items or two payments of one id |
| SalesOutcome.ItemIdIdentifies | packages/db/prisma/demo-import.ts:1395 | For colon-free fields items share an id exactly when they agree in branch, order number and line |
| SalesOutcome.GoesThroughIffListed | packages/db/prisma/demo-import.ts:1389-1464 | The success condition in the fields of the files: the order of every item, payment and refund is listed, and a payment goes by each refund's reference |
| SalesOutcome.OrdersStoredAsFiled | packages/db/prisma/demo-import.ts:1352-1379 | From a clean start every order of the file is stored with its id, branch row, number, status and four amounts; older orders stay, and nothing else is added |
| SalesOutcome.RowsStoredAsFiled | packages/db/prisma/demo-import.ts:1386-1487 | Where no id is taken or repeated, the items and payments tables end as the rows of other orders, mobile money hardened, followed by the file's rows in their order with every field |
| SalesOutcome.EveryListedOrderIsSettled | packages/db/prisma/demo-import.ts:1352-1487 | End to end in stored fields: from such a start every listed order is stored as filed, its stored items and the file's modifiers sum to its subtotal, a closed order is paid exactly and none overpaid |
| SalesOutcome.HardeningSpelled | packages/db/prisma/demo-import.ts:1470-1487 | Hardening makes mobile money pending and provider-gated, changes nothing else of it and no other payment, and counts exactly the rows it changes |
| SalesOutcome.UnknownBranchStopsTheImport | packages/db/prisma/demo-import.ts:1353-1379 | An order of an unknown branch stops the import before anything is written; otherwise every order ends stored under its id or its branch and number |
| SalesOutcome.StrayPaymentStopsTheImport | packages/db/prisma/demo-import.ts:1411-1431 | Any accepted pack stays accepted with one more payment for a missing order, and its import then stops with orders and items written and the payments of its orders gone |
| SalesOutcome.StrayRefundStopsTheHardening | packages/db/prisma/demo-import.ts:1448-1480 | Any accepted pack stays accepted with one more refund of a missing payment, and all that its import then leaves undone is the hardening |
| Ledger.ComputeTotals | packages/db/prisma/demo-import.ts:1651 | The importer's fold over the lines of one journal, with every non-debit line counted as credit |
| Ledger.LedgerStore.Import | packages/db/prisma/demo-import.ts:1646-1664 | Headers and lines become exactly what the specification of the step gives; a failed run leaves exactly the headers, or the lines, written before the failing row |
| LedgerLaws.ImporterTotalsAreThePacks | packages/db/prisma/demo-import.ts:1651 | On lines that are all debits or credits the importer's totals are the validator's |
| LedgerLaws.HeadersClosedForm | packages/db/prisma/demo-import.ts:1646-1653 | Each header after the import in closed form: created, updated or skipped |
| LedgerLaws.LookupLeadsToOwner | packages/db/prisma/demo-import.ts:1655 | The lookup by number leads to the header of the last row with that number |
| LedgerLaws.HeadersSucceedIff | packages/db/prisma/demo-import.ts:1653 | Into any store the headers go through exactly when, for each header not stored, the id derived from its number is free and no other organization's new header has the number |
| LedgerLaws.LineIdIdentifies | packages/db/prisma/demo-import.ts:1662 | For colon-free fields a line id belongs to one line only |
| LedgerLaws.JournalsSucceedIff | packages/db/prisma/demo-import.ts:1646-1664 | On any store the journal import goes through exactly when the headers do, every line's journal is in the file, the line ids are distinct, and no line of a header left alone holds one |
| LedgerLaws.RepeatedLineStopsTheImport | packages/db/prisma/demo-import.ts:1658-1664 | A journal with the same line twice is accepted, and its import fails on every store |
| LedgerLaws.StoredLinesOfHeader | packages/db/prisma/demo-import.ts:1657-1664 | The stored lines of any header: those of its number if it owns the number, else the ones it had |
| LedgerLaws.LedgerStoredBalanced | packages/db/prisma/demo-import.ts:1646-1664 | With numbers unique across organizations, each header of an accepted pack states equal debits and credits, and they are the sums of its stored lines |
| LedgerLaws.HeaderConsistentIff | packages/db/prisma/demo-import.ts:1646-1664 | The exact condition, on the store before the import, for a header to agree with its lines, for shared numbers and for skipped headers |
| LedgerLaws.SharedNumberIsInconsistent | packages/db/prisma/demo-import.ts:1646-1664 | Two organizations with one journal number, both headers stored: the import goes through and the first header states totals of lines stored under the second |
| LedgerLaws.RerunRestoresLedger | packages/db/prisma/demo-import.ts:1657-1664 | A further run restores the ledger whatever was done to the lines of its journals, and run on its own result changes nothing |
| LedgerOutcome.ImporterTotalsSpelled | packages/db/prisma/demo-import.ts:1651 | For any lines, the importer's debit total is the sum over the journal's DEBIT lines and its credit total the sum over all its other lines |
| LedgerOutcome.HeadersStoredAsFiled | packages/db/prisma/demo-import.ts:1646-1656 | After an import, in either mode: every listed journal has a header, stored ones under their id, new ones under one made of the number, with the file's totals unless an older one is skipped; other headers stay |
| LedgerOutcome.LineIdSpelled | packages/db/prisma/demo-import.ts:1662 | A line's id is made of its five cells, colon-separated |
| LedgerOutcome.LinesStoredAsFiled | packages/db/prisma/demo-import.ts:1657-1664 | After an import the lines table holds the lines of headers the file does not rewrite, and then the file's lines in order, each with its fields and under its owner's header |
| LedgerOutcome.JournalStoredAsFiled | packages/db/prisma/demo-import.ts:1646-1664 | Balance in stored fields, in either mode: a journal whose number one organization has is stored with lines that balance at the file's sums, which its header states if it is new or updated |
| LedgerOutcome.LedgerKeepsUniqueKeys | packages/db/prisma/demo-import.ts:1653-1662 | No import, whether it goes through or stops, stores two headers or two lines of one id |
| LedgerOutcome.JournalsFailUnknownIff | packages/db/prisma/demo-import.ts:1658-1662 | Which error a failing import ends with, from the inputs alone: an unknown journal exactly when the headers are writable and so are the lines before one whose journal is not listed |
| Balances.SumSettlements | packages/db/prisma/demo-import.ts:1671 | The filter-and-reduce over payments is the sum for the party |
| Balances.OutstandingAmounts | packages/db/prisma/demo-import.ts:1666-1673 | Each document is written with its total less everything its party settled, but not below zero, so between zero and its total |
| Balances.OutstandingNeverOverstates | packages/db/prisma/demo-import.ts:1671-1672 | The sum over one party never exceeds what is owed, and is exact precisely when nothing or everything was settled or only one document is positive |
| Balances.PartPaymentIsCountedTwice | packages/db/prisma/demo-import.ts:1671-1672 | With two open documents one part payment is taken off both, and what is written is short by it |
| Balances.PartyOutstandingNeverOverstates | packages/db/prisma/demo-import.ts:1705-1706 | The same of the amounts written for a whole file of bills or invoices |
| DemoImport.RunImport | packages/db/prisma/demo-import.ts:1822-1851 | A rejected pack reports the first failing check, and like a dry run writes nothing; a written run takes the sales step and then the ledger step in either mode, and ends as the first failing step or as written, with both stores as the steps specify; every listed journal then has its header, orders are paid as due exactly when the payments lost are not needed, itemized exactly when no items are missing, and the journals are sound |
| RolePermissions.GrantStore.SeedRolePermissions | packages/db/prisma/seed.ts:1674-1724 | The table becomes its union with the resolvable grants of the matrix; created counts the growth and skipped the listed grants already there |
| RolePermissions.GrantStore.RevokeStaleRolePermissions | packages/db/prisma/seed.ts:1761-1793 | The table loses exactly the resolvable grants of the revoke table; revoked counts the loss |
| RolePermissions.GrantStore.SeedPermissions | packages/db/prisma/seed.ts:8010-8018 | Both passes in order; the two counters in terms of the starting table, and together they account for the size of the table |
| RolePermissions.GrantsAreListed | packages/db/prisma/seed.ts:1691-1713 | The grants the loops collect are exactly those some listed action resolves to |
| RolePermissions.HeldAfterSeedIff | packages/db/prisma/seed.ts:1674-1793 | A grant is held after both passes exactly when it is not revoked and was there before or is in the matrix |
| RolePermissions.SeedConverges | packages/db/prisma/seed.ts:1674-1793 | Over any history of runs and hand edits the final table is decided by the two lists and, outside them, by the edits alone |
| RolePermissions.SecondRunCounters | packages/db/prisma/seed.ts:1720-1792 | A second run leaves the table as it is, and its two counters are equal and are zero exactly when no grant is listed in both lists |
| Memberships.MembershipStore.AddMembership | packages/db/prisma/seed.ts:2038-2064 | One membership: the new table, and the invariant kept through the clearing and the creation |
| Memberships.MembershipStore.SeedMemberships | packages/db/prisma/seed.ts:2012-2073 | At most one default per user and organization holds after every write; created counts the new rows, and created plus skipped the listed memberships that resolve |
| Memberships.RowsAfterCodes | packages/db/prisma/seed.ts:2029-2064 | After an entry exactly the resolvable memberships were added, with the entry's role and organization; old ones keep theirs |
| Memberships.DefaultAfterCodes | packages/db/prisma/seed.ts:2029-2069 | The default of any user anywhere after an entry: the listed branch alone exactly when it is listed, exists and the user has no membership there; else unchanged |
| Memberships.RowsAfterAll | packages/db/prisma/seed.ts:2012-2073 | After the whole loop exactly the old memberships and the listed ones that resolve exist; old ones keep organization and role, new ones have those of the first entry that lists them |
| Memberships.DefaultAfterAll | packages/db/prisma/seed.ts:2012-2073 | The default of any user after the whole loop: the branch of the last entry that lists its existing default where neither the table nor an earlier entry has the user, alone; else unchanged |
| Memberships.FreshUserGetsListedDefault | packages/db/prisma/seed.ts:2012-2073 | After the whole loop a fresh user named by one entry, whose listed default exists, has exactly that one as default |
| Memberships.SeedIsIdempotent | packages/db/prisma/seed.ts:2038-2044 | A second run changes nothing, defaults included |
| QuickPins.PinStore.FindByLookup | packages/db/prisma/seed.ts:2130 | The unique-index lookup finds a holder exactly when there is one |
| QuickPins.PinStore.SeedQuickPins | packages/db/prisma/seed.ts:2098-2157 | The seed's table is that of its list and keeps the index valid; created counts the new PIN holders, and created plus skipped the entries whose user exists |
| QuickPins.SeedNeverReplacesPins | packages/db/prisma/seed.ts:2119-2124 | The seed leaves users with a PIN and users it does not list as they are |
| PinSeed.SeededIff | packages/db/prisma/seed.ts:2098-2157 | On any table, for a list that names each user once: a user with an account and no PIN ends enabled with the listed PIN and its lookup exactly when no other user holds that lookup at its turn, by an earlier entry or by the table; else unchanged |
| PinSeed.FirstComeFirstServed | packages/db/prisma/seed.ts:2098-2157 | Where every stored lookup belongs to a PIN: a listed user without one gets it exactly when no stored user holds the lookup and no earlier entry of a user without PIN has the same PIN |
| QuickPins.PinStore.SetKnownDemoQuickPin | packages/db/prisma/demo-import.ts:536-565 | The importer sets the PIN, or fails on a collision and writes nothing; the index stays valid |
| QuickPins.PinStore.ImportQuickPins | packages/db/prisma/demo-import.ts:826-844 | The importer's loop: the table its list specifies, or the first collision with exactly the PINs before it set; the index stays valid either way |
| QuickPins.EveryRunKeepsIndex | packages/db/prisma/demo-import.ts:536-565 | Over any run of seed and import steps in any order, failed ones included, lookups stay unique and agree with the PIN hashes |
| QuickPins.LookupInjective | packages/db/prisma/seed.ts:2094-2096 | A lookup determines branch and PIN, for PINs without a colon |
| QuickPins.LookupAgreesWithScan | packages/db/prisma/demo-import.ts:541-545 | Looking up a branch and PIN agrees with trying the PIN on every user of the branch, and at most one user has it there |
| QuickPins.ListedUsersHoldTheirPins | packages/db/prisma/demo-import.ts:826-844 | After the importer's list went through, each listed user holds exactly the listed PIN |
| QuickPins.ImportIsIdempotent | packages/db/prisma/demo-import.ts:826-844 | A list that went through goes through again and changes nothing |
| QuickPins.ImportSucceedsIff | packages/db/prisma/demo-import.ts:541-565 | On any table any list goes through exactly when, at each binding's turn, no other user holds the lookup it asks for, by the last earlier binding or by the table |
| QuickPins.DistinctImportSucceedsIff | packages/db/prisma/demo-import.ts:826-844 | A list that names each user once goes through exactly when no binding asks for the lookup of an earlier one, or for one stored with a user who is not bound to another before |
| QuickPins.ExchangeFails | packages/db/prisma/demo-import.ts:542-545 | So exchanging the PINs of two users at one branch fails on the first of them, although the exchanged table would be valid |
| KdsTickets.GroupByStation | packages/db/prisma/seed.ts:4528-4552 | One pass over the items gives one ticket per station in order of first appearance, each with the station's items in order |
| KdsTickets.StationsExactly | packages/db/prisma/seed.ts:4530-4535 | Exactly the stations that have items get a ticket, each one |
| KdsTickets.TicketsInOrder | packages/db/prisma/seed.ts:4528-4552 | Each ticket is for a station of some item other than NONE, lists exactly the ids of that station's items in their order, and the tickets come in order of first appearance |
| KdsTickets.TicketsPartitionItems | packages/db/prisma/seed.ts:4528-4552 | The tickets hold each routed item exactly as often as the order does and no other |

## Left out

- Prisma, Postgres, bcrypt, crypto, the file system, the clock and console output: replaced by the assumptions above.
- The forbidden-path check of `readCsv` and the file discovery of `loadTables`: single checks on names.
- Enum membership other than the line direction, dates, JSON, menu, stock and device rows, and the safety-label checks of `validatePack`: single-branch facts.
- Resolution of organizations, users, tables, menu items and accounts during the import: assumed, as stated above.
- Refund rows and receipts in the store: whether each refund finds its order and payment is modelled, what it writes is not.
- Analytics, reservations, events, HR, devices, alerts and flags in the importer: instances of the two upsert forms.
- `raw.trim()` in the older file reader: the model starts from trimmed text.
- The regular expression broken across two lines at demo-data/demo-import.scaffold.ts:35-36: modelled as the intended split at LF with an optional CR.
- Validator.CheckRows: does not model the enum checks and the provider-name check of the same rows, which are tests on one cell each.
- Validator.ValidatePack: does not model the enum, date, menu, stock and safety-label checks of the same function, which are tests on one cell each.
- Keys.JoinInjective: for keys of more than two parts the colon-free condition is sufficient; the exact condition is proved for two parts only, because with more parts a second reading can still be impossible.
