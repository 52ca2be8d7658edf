# Rentivo: a verified model

Rentivo bills rent. This project models the parts of it that carry state machines, arithmetic or
round trips, and proves what they keep. `dafny verify dfyconfig.toml` checks everything.

| file | what it models |
|---|---|
| `Gf2.dfy`, `Crc.dfy` | polynomials over GF(2), and the checksum loop of PIX payloads as a polynomial remainder |
| `Numerals.dfy`, `Texts.dfy`, `Wrappers.dfy` | decimal and hexadecimal numerals, replacing characters, results |
| `Tlv.dfy`, `Pix.dfy`, `PixReading.dfy`, `PixBurst.dfy` | tag-length-value text with a parser for it, the PIX payload (section 4 of the EMV QR Code Specification, Merchant-Presented Mode), what a reader finds in it, and the errors its checksum shows |
| `Money.dfy` | amounts as text, through float division, multiplication and rounding |
| `Keys.dfy`, `ItemTable.dfy`, `Receipts.dfy`, `PdfMerge.dfy` | storage keys, lines of bills and billings, ordered receipts, the page sequence of a merged PDF |
| `BillWorld.dfy`, `BillCoherence.dfy` | the bill service as functions on tables and storage; the stored PDF as a cache that every run keeps coherent |
| `BillEffects.dfy` | what each request leaves for later ones to read, and what it leaves alone |
| `BillGaps.dfy`, `BillExample.dfy` | when exactly requests that the service accepts break that coherence, and a run that does |
| `BillMoney.dfy` | conservation of money from the items of a billing to the amount in the payload, whom that payload pays, and what a reader finds in a stored PDF |
| `BillService.dfy`, `BillRequests.dfy` | the same service as objects that update repositories, storage and the caller's bill in place |
| `Limiter.dfy` | the sliding-window limiters, with requests that interleave between check and record |
| `Mfa.dfy`, `MfaService.dfy` | second factors: TOTP, recovery codes, passkeys |
| `Sessions.dfy`, `AuthRoutes.dfy` | login sessions over whole runs, and the handlers that change them |
| `Served.dfy` | whole runs of a server whose own limiters answer: when exactly a login or a second step is limited |
| `Invites.dfy`, `InviteService.dfy` | organizations, members and invites |
| `Access.dfy` | who may see a billing, and the query that lists billings |
| `Base64Url.dfy` | the browser's unpadded base64url codec |
| `Formset.dfy` | dynamic form rows, from the page to the server |

Where the source changes things step by step there is a method or a class whose contract equates
the new state with a function of the old one; the lemmas speak about these functions.

## What is taken for granted

- A float operation returns the exact real result times (1+e) with e at most 2^-53 in size. Nothing
  else is assumed about rounding. Amounts are below 2^51 centavos.
- Identifiers (ULIDs) are fresh when they are made and have no slash, row ids grow, and users' ids
  are not 0.
- Each service operation is atomic and its SQL statements and saves succeed. The exception is the
  limiter, where check and record are separate steps.
- A query is the set of rows it selects and its ORDER BY; where the order is not determined, every
  order is allowed. The foreign key of lines refuses lines of a bill that does not exist, and
  `user_totp.user_id` and organization members are unique.
- Drawing an invoice, reading and writing PDFs, converting images, stripping accents, checking a
  TOTP code, a hash or a passkey are functions of their inputs.

## Where the code and its descriptions part

- `format_brl_input` and `parse_brl` are inverse on printed texts, not on every text a person may
  type: without a comma a point is a decimal point, so grouped reais without cents are read as meant
  only below a thousand (`Money.GroupedTextIff`).
- `reorder_receipts` means to accept permutations; a repeated uuid of the right total length passes
  both checks (`Receipts.RepeatAccepted`), and then the listing is not the list
  (`Receipts.ReorderGivesListIff`).
- `generate_pix_payload` says the merchant's name and city are ASCII; nothing ensures it after
  accents are stripped. `update_bill` has committed the new lines by the time the payload fails, and
  the old PDF stays (`BillCoherence.RefusedUpdateLeavesOldPdf`).
- The delete route for receipts does not compare the receipt with the bill of its address
  (`BillGaps.DeleteKeepsIff`, `BillExample.SampleRun`), and the command line builds the bill service without a receipt
  repository (`BillGaps.NoRepositoryKeepsIff`, `BillGaps.NoRepositoryUpdateIff`).
- The ULID in a receipt's storage key is not the uuid of its row, and the file of a deleted receipt
  stays in storage. The model follows the code in both.

## Model

| member | source | states |
|---|---|---|
| `Crc.RegisterIsRemainder` | rentivo/pix.py:19-30 | for every byte sequence the register after the loop is the remainder of M·x^16 + 0xFFFF·x^(8n) by x^16 + x^12 + x^5 + 1 over GF(2) |
| `Gf2.RemainderUnique` | rentivo/pix.py:19-30 | that remainder is unique, so the statement above determines the register |
| `Crc.MaskIsSixteenBitArithmetic` | rentivo/pix.py:24-29 | masking after each shift of an unbounded integer is sixteen-bit arithmetic, so the model's words lose nothing |
| `Crc.EqualRegisterIffDivisible` | rentivo/pix.py:19-30 | two messages of equal length have equal checksums exactly when their difference is a multiple of the generator |
| `Crc.BurstDetected` | rentivo/pix.py:19-30 | messages of equal length that differ only within sixteen consecutive bits never have equal checksums |
| `Crc.OddErrorDetected` | rentivo/pix.py:19-30 | messages of equal length that differ in an odd number of bits never have equal checksums |
| `Crc.ResidueIsZero` | rentivo/pix.py:19-30 | feeding the register's own two bytes, high one first, leaves zero, for every message |
| `Crc.PrintRegisterIsFourHexDigits` | rentivo/pix.py:30 | the printed checksum is exactly four upper-case hexadecimal digits with the value of the register |
| `Crc.PrintRegisterInjective` | rentivo/pix.py:30 | different registers print differently |
| `Crc.Crc16Ccitt` | rentivo/pix.py:19-30 | the nested loops compute the checksum of which the lemmas speak, and refuse exactly the texts that are not ASCII |
| `Tlv.ParsePrintAll` | rentivo/pix.py:14-16 | fields with two-character tags and at most 99 characters of value are read back exactly |
| `Tlv.RoundTripIff` | rentivo/pix.py:14-16 | fields with two-character tags are read back exactly if and only if no value is longer than 99 characters |
| `Tlv.PrintParse` | rentivo/pix.py:14-16 | whatever text parses is the print of its fields: no other text reads the same |
| `Pix.GeneratePixPayload` | rentivo/pix.py:33-84 | the growing payload is the one of which the lemmas speak |
| `Pix.PayloadIsFields` | rentivo/pix.py:46-84 | the whole payload is printed fields, and its last four characters are the checksum of everything before them |
| `Pix.PayloadRoundTripIff` | rentivo/pix.py:46-84 | a reader recovers every root field and nothing else if and only if the key has at most 77 characters, the transaction id at most 95 and the amount rounds to less than 10^98 centavos |
| `Pix.LongKeyUnreadable` | rentivo/pix.py:50-57 | a key of 78 characters makes a payload that does not read back |
| `Pix.AccentedKeyRefused` | rentivo/pix.py:22 | a key with a letter beyond ASCII makes no payload |
| `Pix.TemplatesRoundTrip` | rentivo/pix.py:50-53 | the fields nested in tags 26 and 62 are recovered exactly within the same bounds |
| `Pix.PayloadSucceedsIff` | rentivo/pix.py:46-84 | a payload is produced exactly when key, transaction id, clipped name and clipped city are ASCII after accents are stripped |
| `PixReading.PayloadShows` | rentivo/pix.py:46-84 | what a reader finds by tag in any payload within those bounds: 00, 52, 53 and 58 as fixed, the key in field 01 of tag 26, the amount in tag 54 when one is stated, the stripped name cut to 25 characters in tag 59, the stripped city cut to 15 in tag 60, the transaction id in field 05 of tag 62, and last the checksum of everything before it |
| `Pix.CorruptionNoticed` | rentivo/pix.py:46-84 | a reader that recomputes the checksum notices every burst of at most sixteen bits, and every odd number of changed bits, in the text before an unchanged checksum |
| `PixBurst.EveryBurstNoticed` | rentivo/pix.py:46-84 | it notices every burst of at most sixteen bits anywhere in the payload: in the text, in the printed checksum, or across the border between them |
| `PixBurst.NoShortBurst` | rentivo/pix.py:19-30 | two texts of equal length with their printed checksums never differ within sixteen consecutive bits |
| `Money.FormTextRoundTrip` | rentivo/models/__init__.py:6-25 | for every amount below 2^51 in size, the form text parses back to it, also with blanks around it, whatever the rounding of the float operations within 2^-53 |
| `Money.AmountTextRoundTrip` | rentivo/cli/bill_menu.py:19-21 | the same for the dotted default text of the command line |
| `Money.WholeTextParses` | rentivo/models/__init__.py:12-25 | reais typed without cents are read as that many reais |
| `Money.CommaTextParses` | rentivo/models/__init__.py:12-25 | reais and two digits of cents after a comma, or after a point, are read exactly, with or without points between the thousands, with a sign and with blanks around |
| `Money.UnsignedIff` | rentivo/models/__init__.py:22 | the texts read as an unsigned number are exactly digits with at most one point among them and at least one digit |
| `Money.SignedText` | rentivo/models/__init__.py:22 | a sign before such a text keeps or negates its value |
| `Money.HalfToEven` | rentivo/models/__init__.py:23 | halves are rounded to the even neighbour |
| `Money.GroupedTextIff` | rentivo/models/__init__.py:20-23 | reais with points and without cents are read as meant if and only if they are below a thousand; from a thousand on the value is a thousandth to the nearest centavo, and from a million on, and only then, the text is refused |
| `Money.PointWithoutComma` | rentivo/models/__init__.py:20-23 | for example 2.850 without a comma is 285 centavos |
| `Money.GroupShape` | rentivo/models/__init__.py:9 | counted from the right every fourth character of the grouped whole part is a separator, and no other is |
| `Money.UngroupSwapped` | rentivo/models/__init__.py:9-21 | dropping the points from the grouped and swapped digits leaves the digits |
| `Money.AmountTextDecodes` | rentivo/pix.py:69-70 | the two-decimal text of a quotient by 100 is the exact decimal of the centavos |
| `Keys.StorageKeyInjective` | rentivo/services/bill_service.py:27-31 | two bills never share a storage key, if billing ids have no slash |
| `Keys.ReceiptKeyInjective` | rentivo/services/bill_service.py:34-39 | two receipts never share a storage key |
| `Keys.KeysDisjoint` | rentivo/services/bill_service.py:27-39 | a receipt is never stored where a bill's PDF is |
| `Keys.KeyEnds` | rentivo/services/bill_service.py:21-39 | keys begin with the prefix and end in the bill's id and .pdf, or in the receipts folder, the receipt's id and the extension of its type |
| `Keys.SampleKeys` | rentivo/services/bill_service.py:27-39 | for example dados/G/B.pdf, and G/B/receipts/R.jpg without a prefix |
| `ItemTable.RewriteKeepsOrder` | rentivo/repositories/sqlalchemy.py:390-421 | after rows are deleted and re-enumerated the parent has exactly the caller's list in the caller's order, other parents keep theirs, and sort orders still determine the order |
| `ItemTable.OwnQueryUnique` | rentivo/repositories/sqlalchemy.py:323-332 | ORDER BY sort_order leaves the database no choice among the rows of one parent |
| `ItemTable.BatchedQueryRefinesOwn` | rentivo/repositories/sqlalchemy.py:374-388 | whatever order the database gives to rows of different parents, grouping the batched query gives each parent what its own query gives |
| `ItemTable.GroupByParent` | rentivo/repositories/sqlalchemy.py:385-387 | the dictionary filled row by row holds for every parent its rows in order |
| `ItemTable.ListBatched` | rentivo/repositories/sqlalchemy.py:170-187 | the batched listing returns for each listed parent exactly its items in order |
| `Receipts.ListByBillIsListing` | rentivo/repositories/sqlalchemy.py:925-934 | the listing holds exactly the bill's rows, ordered by sort order and then id |
| `Receipts.ListingOrder` | rentivo/repositories/sqlalchemy.py:925-934 | of two listed receipts the first has the smaller sort order, or the same and the smaller id |
| `Receipts.ListingUnique` | rentivo/repositories/sqlalchemy.py:925-934 | the query has one possible result, also with tied sort orders |
| `Receipts.MaxSort` | rentivo/services/bill_service.py:290-292 | the largest sort order, -1 for none |
| `Receipts.AddAppends` | rentivo/services/bill_service.py:290-305 | an added receipt is listed last, and no other bill's listing changes |
| `Receipts.DeleteKeepsOrder` | rentivo/repositories/sqlalchemy.py:936-941 | deleting a receipt removes it from the listing and moves nothing else |
| `Receipts.FirstForeign` | rentivo/services/bill_service.py:348-350 | the check finds a uuid of another bill exactly when there is one |
| `Receipts.AcceptsExactlyPermutations` | rentivo/services/bill_service.py:345-352 | among lists without repeats exactly the permutations of the bill's receipts are accepted |
| `Receipts.OrderRefusals` | rentivo/services/bill_service.py:345-352 | a list is refused for its first uuid that is no receipt of the bill, and for its length exactly when there is none |
| `Receipts.ReorderGivesListIff` | rentivo/services/bill_service.py:338-355 | after an accepted list the listing is that list if and only if it has no repeats |
| `Receipts.RepeatAccepted` | rentivo/services/bill_service.py:348-352 | a list that repeats one uuid and has the right length is accepted |
| `Receipts.ReorderKeepsOthers` | rentivo/repositories/sqlalchemy.py:943-949 | an accepted list changes no other bill's listing, and no id, uuid or owner |
| `PdfMerge.MergeReceipts` | rentivo/pdf/merger.py:63-107 | the loops produce the merged file of which the lemmas speak, with partial pages of a receipt that fails midway and the bare invoice when it cannot be read |
| `PdfMerge.MergedPages` | rentivo/pdf/merger.py:76-107 | the merged file holds the invoice's pages first and then each receipt's pages in the order of the receipts |
| `PdfMerge.MergedShows` | rentivo/pdf/merger.py:76-107 | page by page: after the invoice's pages each PDF gives its pages, each JPEG or PNG image those of its conversion, and every other file, or image that cannot be converted, none, in the order of the receipts |
| `PdfMerge.MergedOne` | rentivo/pdf/merger.py:88-103 | the same for one receipt |
| `PdfMerge.InvoiceKept` | rentivo/pdf/merger.py:73-85 | an invoice without receipts, or one that cannot be read, is returned as it is |
| `BillCoherence.PixReadyIff` | rentivo/services/bill_service.py:57-75 | PIX data can be made exactly when the texts are ASCII or PIX is not configured, whatever the total |
| `BillCoherence.BillKeysDiffer` | rentivo/services/bill_service.py:121-122 | saving one bill's PDF never overwrites another's |
| `BillCoherence.ReceiptKeyDiffers` | rentivo/services/bill_service.py:287-295 | saving a PDF never overwrites a receipt's file |
| `BillCoherence.GenerateRestores` | rentivo/services/bill_service.py:102-131 | drawing and storing the PDF of a loaded bill makes the one stale bill coherent and disturbs no other |
| `BillCoherence.GenerateKeeps` | rentivo/services/bill_service.py:133-194 | generating a bill keeps the coherence of every stored PDF |
| `BillCoherence.UpdateKeeps` | rentivo/services/bill_service.py:198-216 | so does editing one |
| `BillCoherence.RegenerateKeeps` | rentivo/services/bill_service.py:218-222 | so does drawing it again |
| `BillCoherence.AddReceiptKeeps` | rentivo/services/bill_service.py:264-311 | so does adding a receipt, refused uploads included |
| `BillCoherence.DeleteReceiptKeeps` | rentivo/services/bill_service.py:313-324 | so does deleting one of the bill's receipts |
| `BillCoherence.ReorderReceiptsKeeps` | rentivo/services/bill_service.py:338-358 | so does reordering them, refused lists included |
| `BillCoherence.StatusKeeps` | rentivo/services/bill_service.py:235-246 | so does a change of status |
| `BillCoherence.DropKeeps` | rentivo/services/bill_service.py:258-260 | so does deleting a bill |
| `BillCoherence.CoherentAlways` | rentivo/services/bill_service.py:84-358 | in every state that requests lead to, each bill that is not deleted has a stored PDF that shows its persisted lines, total, notes and due date, followed by its receipts in order, with the billing's name and key and the theme as they were when it was last drawn; totals equal the sums of persisted lines; every receipt's file is stored |
| `BillCoherence.AllReceiptsMerged` | rentivo/services/bill_service.py:84-100 | none of a bill's receipts is skipped as missing |
| `BillCoherence.UpdateSucceedsIff` | rentivo/services/bill_service.py:207-216 | an edit draws the new PDF exactly when the bill is live and the PIX texts are ASCII |
| `BillCoherence.RefusedUpdateLeavesOldPdf` | rentivo/services/bill_service.py:211-214 | otherwise the lines are replaced and the old PDF stays in storage |
| `BillCoherence.GenerateSucceedsIff` | rentivo/services/bill_service.py:145-194 | a new bill gets its PDF exactly when every item that is not fixed has an id, the billing has one, and the PIX texts are ASCII |
| `BillCoherence.RefusedGenerateLeavesBill` | rentivo/services/bill_service.py:183-192 | when only the texts are at fault the bill stays behind, with its lines and without a PDF |
| `BillEffects.GenerateThenLoad` | rentivo/services/bill_service.py:133-194 | a generated bill loads with the lines, notes and due date asked for, as a draft; every other bill loads as before |
| `BillEffects.UpdateThenLoad` | rentivo/services/bill_service.py:198-216 | an edited bill loads with the new lines, their sum, notes and due date and is otherwise as it was; every other bill loads as before |
| `BillEffects.RewrittenLoads` | rentivo/repositories/sqlalchemy.py:390-428 | the row of a live bill takes month, total, notes, due date and lines from any object it is updated from, and nothing else; every other bill loads as before |
| `BillEffects.RegenerateThenLoad` | rentivo/services/bill_service.py:218-222 | drawing again succeeds exactly when the PIX texts are ASCII; then only the path of the bill changes, and without success nothing |
| `BillEffects.StatusThenLoad` | rentivo/services/bill_service.py:235-246 | exactly the six known statuses are accepted; the new status loads and nothing else changes |
| `BillEffects.DropThenLoad` | rentivo/repositories/sqlalchemy.py:444-449 | a deleted bill no longer loads and nothing else changes |
| `BillEffects.AddThenList` | rentivo/services/bill_service.py:264-311 | an upload is refused exactly for its type, its size or for being empty, and then changes nothing; otherwise its bytes are stored under its key and its row is listed last |
| `BillEffects.UploadRefusals` | rentivo/services/bill_service.py:277-284 | an upload is refused for its type first, then for its size, then for being empty |
| `BillEffects.BillRefusals` | rentivo/services/bill_service.py:198-246 | the reasons to refuse a status, an edit, a deletion or a new order: unknown status, no id, a bill that is gone, no receipt repository |
| `BillEffects.DeleteThenList` | rentivo/services/bill_service.py:313-324 | a deleted receipt leaves its bill's listing, the others keep their order, other bills keep theirs |
| `BillEffects.ReorderThenList` | rentivo/services/bill_service.py:338-358 | a list without repeats is accepted exactly when it is a permutation; then the listing is that list, and a refused list changes nothing |
| `BillEffects.BillsAreForGood` | rentivo/repositories/sqlalchemy.py:390-449 | whatever requests follow, a bill keeps id, uuid and billing, and a deleted bill stays deleted and unchanged |
| `BillEffects.KeysAreForGood` | rentivo/services/bill_service.py:27-31 | so its PDF is found under one key for good |
| `BillGaps.DeleteKeepsIff` | web/routes/bill.py:579-592 | the delete route finds the receipt by its uuid alone: the PDFs stay coherent if and only if the receipt is the bill's own or its bill is deleted, with invoices of any number of pages |
| `BillGaps.ForeignDeleteLeavesStale` | web/routes/bill.py:579-592 | otherwise the other bill's PDF still shows the receipt that is gone |
| `BillExample.ForeignDeleteRun` | web/routes/bill.py:579-592 | a concrete run: one billing, two bills, a receipt on the first deleted on the page of the second; the first bill's PDF still shows it |
| `BillExample.SampleRun` | rentivo/pdf/invoice.py:104-107 | the same run with concrete libraries, whose invoices have one more page with a PIX code, as the program's have |
| `BillExample.PixAddsPage` | rentivo/pdf/invoice.py:104-107 | those invoices do have one more page with a PIX code than without |
| `BillGaps.NoRepositoryKeepsIff` | rentivo/cli/app.py:24-34 | drawing a PDF again with a service that has no receipt repository keeps the PDFs coherent if and only if the bill has no receipts |
| `BillGaps.NoRepositoryUpdateIff` | rentivo/cli/app.py:24-34 | so does editing a bill with it |
| `BillGaps.NoRepositoryGenerateKeeps` | rentivo/cli/app.py:24-34 | generating a bill with it always keeps them coherent |
| `BillMoney.GeneratedTotal` | rentivo/services/bill_service.py:145-173 | a generated bill's lines add up to the fixed amounts, the amounts entered for the other items (0 by default) and the extras |
| `BillMoney.GeneratedLines` | rentivo/services/bill_service.py:145-171 | line by line: the billing's items in order with their fixed or entered amounts, then the extras in order with description, amount and kind |
| `BillMoney.PixDataKey` | rentivo/services/bill_service.py:57-75 | which key PIX data names, whatever its length; there is none exactly when both keys are empty or the recipient's name or city is not configured |
| `BillMoney.PixDataStates` | rentivo/services/bill_service.py:57-75 | for every key of at most 77 characters: the payload names the billing's own key, or the configured one when the billing has none, in field 01 of tag 26, and the recipient of the settings; its tag 54 decodes to exactly the total and is absent for a total that is not positive |
| `BillMoney.MoneyConserved` | rentivo/services/bill_service.py:133-194 | end to end: items, bill row, persisted lines and the payload drawn on the stored invoice all state the same sum to the centavo, and that payload pays the billing's own key or else the configured one |
| `BillMoney.MoneyConservedByUpdate` | rentivo/services/bill_service.py:198-216 | the same after an edit |
| `BillMoney.EveryStoredPdf` | rentivo/services/bill_service.py:57-131 | in every state that requests lead to, a reader of a live bill's PDF finds its persisted lines, total, notes and due date, PIX data that pays the key of that occasion exactly the total, and then the pages of each of its receipts, type by type and in order |
| `BillService.BillRepository.Create` | rentivo/repositories/sqlalchemy.py:251-293 | inserts the bill and its lines, enumerated in list order, and returns a new object with what is stored |
| `BillService.BillRepository.Update` | rentivo/repositories/sqlalchemy.py:390-428 | rewrites row and lines and returns a new object with what is stored |
| `BillService.BillRepository.InsertLines` | rentivo/repositories/sqlalchemy.py:271-286 | the loop appends one row per item, numbered from 0 |
| `BillService.ReceiptRepository.UpdateSortOrders` | rentivo/repositories/sqlalchemy.py:943-949 | the loop applies the updates in order |
| `BillService.ReceiptRepository.Delete` | rentivo/repositories/sqlalchemy.py:936-941 | removes the rows with the id and keeps the others in order |
| `BillService.DraftLines` | rentivo/services/bill_service.py:145-171 | the two loops give the lines of a new bill, or refuse an item that is not fixed and has no id |
| `BillService.OrderUpdates` | rentivo/services/bill_service.py:345-354 | index, membership check, length check and enumeration decide as the plan of which the receipt lemmas speak |
| `BillService.BillService.PixDataOf` | rentivo/services/bill_service.py:57-75 | the payload for the billing's key or the configured one, none without configuration |
| `BillService.BillService.ReceiptFiles` | rentivo/services/bill_service.py:84-100 | the files of the bill's receipts in order |
| `BillService.BillService.GenerateAndStorePdf` | rentivo/services/bill_service.py:102-131 | changes storage, path column and the caller's object as one step of the machine, nothing else |
| `BillService.BillService.GenerateBillPdf` | rentivo/services/bill_service.py:133-194 | changes tables and storage as one step of the machine and returns the new bill |
| `BillService.BillService.UpdateBillPdf` | rentivo/services/bill_service.py:198-216 | the caller's object takes the new values at once, also when the update fails; a separately loaded object gets the path |
| `BillService.BillService.SetBillStatus` | rentivo/services/bill_service.py:235-246 | unknown status and missing id are refused before anything changes |
| `BillService.BillService.AddReceiptFile` | rentivo/services/bill_service.py:264-311 | validation, key, order, file, row and PDF as one step of the machine |
| `BillService.BillService.RemoveReceipt` | rentivo/services/bill_service.py:313-324 | row and PDF as one step of the machine |
| `BillService.BillService.ReorderBillReceipts` | rentivo/services/bill_service.py:338-358 | sort orders and PDF as one step of the machine |
| `BillRequests.Application.Handle` | web/routes/bill.py:221-306 | every request on the objects takes the state to the next one of the run |
| `BillRequests.Application.Serve` | web/routes/bill.py:41-655 | a server that starts empty and handles granted requests keeps every stored PDF coherent |
| `Limiter.RateLimiter.IsRateLimited` | web/auth.py:28-34 | prunes the address's list in place and answers from the pruned list |
| `Limiter.RateLimiter.RecordFailed` | web/auth.py:37-43 | prunes and appends the clock reading |
| `Limiter.RateLimiter.Clear` | web/auth.py:46-48 | forgets the address and no other |
| `Limiter.PruningRefinesHistory` | web/auth.py:28-48 | after any interleaving, at every later time, the pruned list locks out exactly when the list of all failures since the last success would |
| `Limiter.LockedIff` | web/auth.py:28-34 | locked out means that the last five failures since the last success all lie in the window |
| `Limiter.LockoutEnds` | web/auth.py:28-34 | no address is locked out a whole window after the last event |
| `Limiter.FailuresPerWindow` | web/auth.py:134-152 | with at most k requests of an address between check and record at a time, at most 4+k failures since the last success lie in any window |
| `Limiter.SequentialLimits` | web/auth.py:17-25 | one request at a time: five failures a minute for passwords, five in five minutes for second factors |
| `Limiter.BoundIsReached` | web/auth.py:245-268 | the bound is tight for every k: some interleaving has exactly 4+k failures in one window |
| `Served.ServedIsRun` | web/auth.py:78-347 | the sessions of a server whose own limiters answer are those of a run, so every theorem on runs holds of it |
| `Served.LoginLimitedIff` | web/auth.py:130-162 | a login is answered as limited exactly when its address has at least five failures within sixty seconds since its last success, among the logins that were let through before |
| `Served.SixthLoginLimited` | web/auth.py:28-48 | so the sixth login of an address within sixty seconds, after five that failed, is limited |
| `Served.GuessesInARow` | web/auth.py:28-48 | of wrong guesses in a row within sixty seconds the first five are let through and no later one |
| `Served.SecondLimitedIff` | web/auth.py:236-268 | the second step of a waiting session is answered as limited exactly after five failures of its address within 300 seconds since its last success |
| `Served.SixthSecondLimited` | web/auth.py:51-68 | so the sixth second step within 300 seconds, after five that failed, is limited |
| `Mfa.RecoveryConsumes` | rentivo/services/mfa_service.py:129-137 | a text is accepted exactly when an unused code of the user matches; one matching code is used up and no other user's |
| `Mfa.BalancedAlways` | rentivo/services/mfa_service.py:48-140 | in every reachable state a user has ten recovery codes if TOTP is confirmed and none otherwise, and unused codes plus recoveries since the last batch make ten |
| `Mfa.AtMostTenRecoveries` | rentivo/services/mfa_service.py:109-137 | a batch is good for at most ten recoveries |
| `Mfa.BatchRemains` | rentivo/services/mfa_service.py:109-120 | a new batch replaces every older code and is wholly unused |
| `Mfa.EachCodeOnce` | rentivo/services/mfa_service.py:109-137 | each code shown with the batch is accepted exactly once, in whatever order |
| `Mfa.OnlyOwnerDeletes` | rentivo/services/mfa_service.py:159-164 | a passkey is deleted by its owner and by no one else; every other passkey stays |
| `Mfa.HasMfaIff` | rentivo/services/mfa_service.py:168-173 | MFA is a confirmed TOTP or a passkey of the user |
| `Mfa.RecoveryIff` | rentivo/services/mfa_service.py:129-137 | a recovery code is accepted exactly when it matches an unused code of the user |
| `Mfa.ConfirmsIff` | rentivo/services/mfa_service.py:75-91 | a setup is confirmed exactly with a code that is valid for its own secret; the same secret is then confirmed, the new codes are all the user has, and nothing else changes |
| `Mfa.RegeneratesIff` | rentivo/services/mfa_service.py:122-127 | new codes are made exactly for a confirmed TOTP and replace only that user's |
| `Mfa.SetupIff` | rentivo/services/mfa_service.py:48-73 | a setup is begun exactly without a confirmed TOTP, and no code is accepted for it before it is confirmed |
| `Mfa.Refusals` | rentivo/services/mfa_service.py:54-162 | the reasons to refuse a setup, its confirmation, new codes and a deletion |
| `Mfa.TurnedOff` | rentivo/services/mfa_service.py:101-105 | afterwards the user has neither TOTP nor codes and everyone else has what they had |
| `Mfa.SignCountSet` | rentivo/services/mfa_service.py:155-157 | the new count is on the passkey with the id and nothing else changes |
| `Mfa.RegisteredThenFound` | rentivo/services/mfa_service.py:147-153 | a registered passkey is found by its credential id, belongs to its user and is MFA for that user |
| `MfaService.RecoveryCodeRepository.CreateBatch` | rentivo/repositories/sqlalchemy.py:1145-1155 | one unused row per hash, in order |
| `MfaService.MfaService.Begin` | rentivo/services/mfa_service.py:48-73 | refused with a confirmed TOTP; an unconfirmed one is replaced, so the unique row never clashes |
| `MfaService.MfaService.GenerateRecoveryCodes` | rentivo/services/mfa_service.py:109-120 | deletes the old codes, and the loop shows and stores ten new ones |
| `MfaService.MfaService.ConfirmSetup` | rentivo/services/mfa_service.py:75-91 | no setup, already confirmed and wrong code are refused before anything changes |
| `MfaService.MfaService.TurnOff` | rentivo/services/mfa_service.py:101-105 | TOTP and all recovery codes of the user go together |
| `MfaService.MfaService.RegenerateBatch` | rentivo/services/mfa_service.py:122-127 | needs a confirmed TOTP |
| `MfaService.MfaService.CheckRecoveryCode` | rentivo/services/mfa_service.py:129-137 | the loop uses up the first matching unused code and stops |
| `MfaService.MfaService.RemovePasskey` | rentivo/services/mfa_service.py:159-164 | only the owner's passkey is removed |
| `MfaService.MfaService.HasAny` | rentivo/services/mfa_service.py:168-173 | confirmed TOTP or some passkey |
| `MfaService.MfaService.UserRequiresSetup` | rentivo/services/mfa_service.py:175-179 | no second factor and a member of an enforcing organization |
| `Sessions.AlwaysExclusive` | web/auth.py:164-194 | no session ever issued is signed in and waiting for a second factor at once, whatever older sessions are presented again |
| `Sessions.SignedInIff` | web/auth.py:78-345 | one request leaves a session signed in as u exactly when u just earned it, or was signed in before and the request is no logout and no successful login |
| `Sessions.PendingIff` | web/auth.py:164-194 | one request leaves a session waiting for u exactly when u just gave the password and has a second factor, or was awaited before and nobody signed in or out |
| `Sessions.PendingIsEarned` | web/auth.py:164-188 | a session waits for u if and only if its own lineage says so: an event that gives the password of u, who has a second factor, and since then none that signs in or out |
| `Sessions.SignedInIsEarned` | web/auth.py:78-345 | a session is signed in as u if and only if its own lineage earned it: back to a sign-up of u, to the password of u without a second factor at that moment, or to an accepted second factor of u presented with a session that itself goes back to the password of u, and no logout or login since |
| `Sessions.TotpSignsInIff` | rentivo/services/mfa_service.py:93-99 | a waiting session is signed in by a TOTP code exactly when its user's TOTP is confirmed and the code is valid for that secret at that time |
| `Sessions.EarnedByValidCode` | web/auth.py:256-297 | the event that earned a session by a TOTP code did so with one valid for the secret that was confirmed then |
| `Sessions.LineageOrigin` | web/auth.py:78-345 | the event that earned it stands among the ancestors of the session, and before a second factor the password of the same u in the same line |
| `Sessions.TablesAreRun` | web/routes/security.py:101-337 | the handlers change the tables of second factors only by the service's operations |
| `Sessions.SecondFactorNeedsNoSetup` | web/auth.py:290-297 | after an accepted second factor the user has MFA, also with the last recovery code used up: the branch that would set the flag never runs |
| `Sessions.FlagClearedOnlyWithMfa` | web/routes/security.py:130-138 | while a session stays with its user the flag goes away only when setup is not required; confirming TOTP and registering a passkey leave the user with MFA |
| `Sessions.LoginSessionIs` | web/auth.py:164-212 | the whole session after a login, a logout and a sign-up; a login sets the flag exactly for a user without MFA in an enforcing organization |
| `Sessions.FlagSetIff` | web/routes/invite.py:28-55 | accepting an invite sets the flag exactly for a user without MFA in an organization that enforces it, turning enforcement on exactly for a user without MFA; a refused invite and turning it off never do |
| `Sessions.ChallengesOnce` | web/routes/security.py:227-427 | a challenge is in the session after it was asked for; a completion takes it out whether it succeeds or fails, so the next one with that session fails |
| `Sessions.CountNoted` | rentivo/services/mfa_service.py:155-157 | a passkey that signs in has its counter noted, and no other passkey, TOTP or code changes |
| `Sessions.RegisteredIff` | web/routes/security.py:260-298 | a passkey is registered exactly in time, to an open challenge and with a valid attestation; it belongs to the signed-in user, and the flag is cleared with it |
| `Sessions.ConfirmedClears` | web/routes/security.py:124-138 | confirming a setup clears the flag exactly with a valid code for the setup's own secret, and leaves the rest of the session |
| `Sessions.TurnedOffIff` | web/routes/security.py:159-178 | TOTP is turned off exactly with the password and without an enforcing organization |
| `Sessions.OthersUntouched` | web/routes/security.py:101-323 | whatever a signed-in user asks for, the second factors of every other user stay |
| `AuthRoutes.Routes.SignUpUser` | web/auth.py:78-120 | session cleared, then signed in; ignored when already signed in |
| `AuthRoutes.Routes.FinishLogin` | web/auth.py:144-212 | session and limiter after the form was read: failure recorded, or list cleared and session set by the second-factor status |
| `AuthRoutes.Routes.FinishVerify` | web/auth.py:256-321 | session, limiter and recovery codes after the second step's form was read |
| `AuthRoutes.Routes.CompletePasskeyAuth` | web/routes/security.py:370-427 | challenge taken out first; only the pending user's own passkey signs in |
| `AuthRoutes.Routes.ConfirmTotpSetup` | web/routes/security.py:124-138 | flag cleared exactly on success |
| `AuthRoutes.Routes.CompletePasskeyRegistration` | web/routes/security.py:260-298 | challenge taken out first; the passkey belongs to the signed-in user |
| `AuthRoutes.Routes.LogOutUser` | web/auth.py:329-347 | nothing of the session remains |
| `AuthRoutes.Routes.BeginPasskeyAuth` | web/routes/security.py:343-367 | a challenge only for a session that waits for a second factor |
| `AuthRoutes.Routes.StartTotpSetup` | web/routes/security.py:101-111 | a confirmed TOTP stays, an unconfirmed one is replaced |
| `AuthRoutes.Routes.DisableTotp` | web/routes/security.py:159-178 | refused with a wrong password and for a member of an enforcing organization, before anything changes |
| `AuthRoutes.Routes.RegenerateRecoveryCodes` | web/routes/security.py:194-203 | ten new codes with a confirmed TOTP, else nothing |
| `AuthRoutes.Routes.BeginPasskeyRegistration` | web/routes/security.py:227-257 | the challenge is noted in the session |
| `AuthRoutes.Routes.DeletePasskey` | web/routes/security.py:314-323 | only the user's own passkey |
| `AuthRoutes.Routes.AcceptOrgInvite` | web/routes/invite.py:28-55 | flag set when the user now has to set up MFA |
| `AuthRoutes.Routes.ToggleOrgMfa` | web/routes/organization.py:388-411 | flag set for an administrator without MFA who turns enforcement on |
| `AuthRoutes.Routes.ServeLogIn` | web/auth.py:130-212 | the check prunes the first limiter's list; a login that is let through records its failure or clears the address |
| `AuthRoutes.Routes.ServeVerify` | web/auth.py:236-321 | the second limiter likewise, only for a session that waits for a second step; the first one is not touched |
| `AuthRoutes.Routes.Dispatch` | web/auth.py:130-321 | every request does what the lemmas on sessions speak of, with the limiter's own answer at its check, and leaves both limiters as these two contracts say or untouched |
| `AuthRoutes.Routes.Take` | web/auth.py:130-321 | one visit takes server, sessions and both limiters to the next state of a served run |
| `AuthRoutes.Routes.Serve` | web/auth.py:78-347 | a server that starts empty and takes requests with any session it issued before goes through such a run, and both limiters are those of the logins and second steps told to them; so each session is signed in exactly as its own lineage earned, and with a clock that does not go back logins are limited exactly after five failures within sixty seconds and second steps exactly after five within 300 |
| `Invites.CreateKeeps` | rentivo/services/organization_service.py:15-18 | a new organization's first member never meets the unique constraint |
| `Invites.CreatedWithAdmin` | rentivo/services/organization_service.py:15-25 | its creator is its administrator and no other membership changes |
| `Invites.MembershipAfter` | rentivo/services/organization_service.py:47-70 | removing a member takes out that membership and a new role changes it, and neither touches another; deleting an organization keeps the members |
| `Invites.SendKeeps` | rentivo/services/invite_service.py:26-60 | a sent invite is the only pending one for its organization and user, and the user is no member |
| `Invites.SentCanBeAnswered` | rentivo/services/invite_service.py:26-60 | an invite is sent exactly when the user is known, is no member, has none pending, and the organization exists; then that user and no other can answer it |
| `Invites.SendOutcome` | rentivo/services/invite_service.py:33-60 | why an invite is not sent, the first reason first, and exactly which row is added when it is |
| `Invites.AnswerRefusals` | rentivo/services/invite_service.py:63-96 | an answer is refused to anyone but the invited user, and then once it was given, alike for accepting and declining |
| `Invites.UnknownInvite` | rentivo/services/invite_service.py:63-86 | and for a uuid that no invite has |
| `Invites.SentThenAnswered` | rentivo/services/invite_service.py:26-99 | sent and accepted, it makes a member with the role it names; sent and declined, it leaves the members and frees the user to be invited again |
| `Invites.AcceptNeverViolates` | rentivo/services/invite_service.py:62-80 | accepting succeeds exactly when the invite is the user's and pending: the unique membership constraint is never violated |
| `Invites.InvAlways` | rentivo/services/invite_service.py:26-99 | in every reachable state at most one invite per organization and user is pending, members have none, and every member created the organization or accepted an invite |
| `Invites.PendingCanBeAccepted` | rentivo/services/invite_service.py:62-80 | every pending invite can be accepted by its user at any time |
| `Invites.AnswersAreFinal` | rentivo/repositories/sqlalchemy.py:820-825 | accepted and declined invites stay so, and no invite row changes but in its status |
| `Invites.DirectMemberKeepsPendingIff` | rentivo/services/organization_service.py:61-62 | inserting a member without an invite keeps the invariant if and only if no invite of that user is pending |
| `InviteService.InviteRepository.HasPendingInvite` | rentivo/repositories/sqlalchemy.py:838-851 | the count is positive exactly when an invite is pending |
| `InviteService.Services.CreateOrganization` | rentivo/services/organization_service.py:15-25 | organization and first member, invariant kept |
| `InviteService.Services.SendInvite` | rentivo/services/invite_service.py:26-60 | the three refusals in order, invariant kept |
| `InviteService.Services.AcceptInvite` | rentivo/services/invite_service.py:62-80 | membership and status in that order; never the constraint's error where the invariant holds |
| `InviteService.Services.DeclineInvite` | rentivo/services/invite_service.py:82-99 | status only, invariant kept |
| `InviteService.Services.RemoveOrgMember` | rentivo/repositories/sqlalchemy.py:642-647 | removes that member only, invariant kept |
| `Base64Url.BufferToBase64url` | web/static/core/js/webauthn.js:5-12 | the loop and the replacements compute the encoding of the lemmas |
| `Base64Url.Base64urlToBuffer` | web/static/core/js/webauthn.js:14-25 | the padding loop and the copying loop compute the decoding of the lemmas, or refuse with it |
| `Base64Url.RoundTrip` | web/static/core/js/webauthn.js:5-25 | every byte array is decoded from its encoding |
| `Base64Url.UrlAlphabet` | web/static/core/js/webauthn.js:11 | the alphabet is A to Z, a to z, 0 to 9, minus and underscore, in this order |
| `Base64Url.EncodedCharacter` | web/static/core/js/webauthn.js:5-12 | each character of an encoding is the alphabet's for its six bits |
| `Base64Url.GroupNumber` | web/static/core/js/webauthn.js:5-12 | four characters stand for the same number as their three bytes, two for one byte and three for two with zeros below |
| `Base64Url.PaddingRestored` | web/static/core/js/webauthn.js:11-18 | an encoding's length is never one more than a multiple of four; the loop appends exactly the stripped padding, at most two characters |
| `Base64Url.RefusedIff` | web/static/core/js/webauthn.js:14-19 | a text without padding and blanks is refused exactly when its length is one more than a multiple of four or a character is foreign |
| `Base64Url.CanonicalIff` | web/static/core/js/webauthn.js:5-25 | a decoded text is the encoding of its bytes if and only if it is spelled URL-safe and its spare bits are zero |
| `Formset.ReadRow` | web/forms.py:21-26 | the loop over all keys collects the fields under one row's prefix |
| `Formset.ParseFormset` | web/forms.py:6-29 | the rows of the lemmas, none for an unreadable or negative total |
| `Formset.SignedInteger` | web/forms.py:15-16 | the total is read with a sign, too |
| `Formset.NoRows` | web/forms.py:15-20 | a total that is missing, negative or no number gives no rows |
| `Formset.Page.AddRow` | web/static/core/js/formset.js:12-28 | a row with the current total as index, total one up |
| `Formset.Page.RemoveRow` | web/static/core/js/formset.js:30-35 | the row with the index goes, the total stays |
| `Formset.AddedLast` | web/static/core/js/formset.js:12-28 | a new row is last, with the old total as index and the template's fields; no other row changes |
| `Formset.RemovedOnly` | web/static/core/js/formset.js:30-35 | the row with the index goes and no other |
| `Formset.IndicesNeverReused` | web/static/core/js/formset.js:15-27 | the indices ever given are 0, 1, 2 and so on, each once, also after removals |
| `Formset.KeyInjective` | web/forms.py:22-25 | a key belongs to one row and one field: no key is read into rows 1 and 10 |
| `Formset.SampleNames` | web/forms.py:14-25 | for example the first item's description comes as items-0-description and the total as items-TOTAL_FORMS |
| `Formset.RowReadBack` | web/forms.py:21-26 | the server finds in each row exactly the fields that the page's row with that index had |
| `Formset.PageRoundTrip` | web/forms.py:14-29 | after any additions, removals and edits the server reads exactly the surviving rows that have fields, in page order |
| `Formset.TwoFormsets` | web/routes/bill.py:245-266 | two formsets with different dash-free prefixes on one page are each read back on their own |
| `Access.PermissionsNest` | rentivo/services/authorization_service.py:15-52 | transfer, edit, manage and view each include the next |
| `Access.RolePermissions` | rentivo/services/authorization_service.py:15-52 | who may do what: a personal billing's owner everything; for an organization's billing any member may view, owner, admin and manager may manage bills, owner and admin may edit; nobody else anything |
| `Access.ViewerOnlyViews` | rentivo/services/authorization_service.py:27-52 | a viewer may view and no more |
| `Access.TransferIff` | rentivo/services/billing_service.py:65-74 | a billing is transferred exactly when it is there, not deleted and personal, and only its owner changes; it is reported missing exactly when it is not there or deleted |
| `Access.ListedIffCanView` | rentivo/repositories/sqlalchemy.py:153-168 | the listing query returns each billing that is not deleted and that the user can view, as often as the table has it, and no other |
| `Access.ListedOnlyToEntitled` | rentivo/repositories/sqlalchemy.py:153-168 | after any history a billing is listed at most once, and only to its personal owner or to a current member who created the owning organization or accepted an invite to it |
| `Access.TransfersAreFinal` | rentivo/services/billing_service.py:65-74 | an owner changes only from a user to an organization, once, and never after deletion |
| `Access.BillingService.TransferToOrganization` | rentivo/services/billing_service.py:65-74 | missing and organization-owned billings are refused before anything changes |

## Left out

- BillCoherence.CoherentAlways: changes of a billing's name, items or PIX key and of themes do not redraw PDFs, so a PDF shows these as they were when it was last drawn and not as they are; the state records that occasion for each bill. The requests are granted fresh ids, ASCII PIX texts and a receipt of the bill's own; `BillCoherence.UpdateSucceedsIff` and `BillGaps.DeleteKeepsIff` say when exactly the last two matter.
- BillGaps.DeleteKeepsIff: assumes that a written PDF reads back with as many pages, that every drawn invoice can be read, and that the receipt's file has pages. Nothing is assumed about how many pages an invoice has.
- BillGaps.NoRepositoryKeepsIff: rests on the same assumptions about PDFs.
- BillGaps.NoRepositoryUpdateIff: rests on the same assumptions about PDFs.
- Money.FormTextRoundTrip: `float` also accepts exponents, underscores, `inf` and `nan`, and more kinds of blank than space and tab to carriage return; the model reads signs, digits and one point. An infinite value raises an error that `parse_brl` does not catch.
- Formset.ParseFormset: `int` also accepts underscores, blanks and digits beyond ASCII; the model reads a sign and digits.
- Pix.PayloadSucceedsIff: accent stripping is a parameter; Unicode normalisation is not modelled.
- Limiter.FailuresPerWindow: clock readings are reals and do not go back; the lists are not shared between server processes.
- Sessions.SignedInIsEarned: the middleware that redirects requests is left out, so the theorem covers more requests than the server lets through; sessions cannot be forged, which is the cookie signature's part. Expiry of challenges and the WebAuthn checks are inputs of the request.
- AuthRoutes.Routes.Serve: takes one request after the other; requests that interleave between a limiter's check and its record are the subject of `Limiter.FailuresPerWindow`.
- Pix.CorruptionNoticed: an odd number of changed bits is noticed when the printed checksum itself is unchanged; only for bursts is the checksum covered too (`PixBurst.EveryBurstNoticed`).
- Mfa.EachCodeOnce: takes codes that match no hash but their own, which is what random codes and bcrypt give but do not ensure.
- Access.ListedIffCanView: covers a service with an organization repository; without one the predicate denies what the query lists.
- Base64Url.RoundTrip: `btoa` and `atob` are written out from RFC 4648 and the rules for forgiving decoding; the browser's own code is not part of this model.
- Storage that fails on save, database errors between two commits of one operation, and requests on one bill that interleave.
- Drawing PDFs and QR codes, image conversion, themes, presigned URLs.
- The billing repository as an object: its items are rows of the same kind as a bill's lines, and the lemmas of `ItemTable.dfy` cover both tables.
- Time stamps of rows: creation, change of status, last use of a passkey.
- Names, flash messages and CSRF tokens in a session.
- Passwords, password changes, registration beyond the new user's id.
- The routes' permission checks, forms, flash messages, audit log, CSRF and middleware path lists.
- That an organization keeps an admin, or an enforcing one only members with MFA: role changes, passkey deletion and toggling do not keep these.
- Ordering of bills by month, listings of invites and organizations, list and detail pages.
- Alembic migrations, seed and regenerate scripts, command line prompts.
