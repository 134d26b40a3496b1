# Boom My Wallet — a Dafny model of its core logic

Boom My Wallet is a personal expense tracker. It has two parts:

- A Node/Express **server** that signs users in with Google's OAuth 2.0 authorization-code flow. That flow is section 4.1 of RFC 6749, and its `state` parameter protects the round trip as section 10.12 of RFC 6749 describes. The server:
  - keeps each user's refresh token, encrypted, in a Firestore user record;
  - accepts transactions posted by a trusted integration and appends them to the user's Google Sheet.
- A React **client** that keeps the transactions in a Google Sheet. It lists, edits and deletes them, and groups them by month.

This project models the logic of both parts that decides something. It proves what that logic promises.

| file | module | what it models |
|---|---|---|
| `wrappers.dfy` | `Wrappers` | `Option` |
| `text.dfy` | `Text` | the JavaScript string operations the code relies on: truthiness, decimal text of integers, `BigInt(...)` parsing, `split`/`join`, regex character filters, `trim`, `substring`, `padStart`/`padEnd` |
| `crypto.dfy` | `Crypto` | HS512 JWT signing/verification and AES-256-GCM, as symbolic values (a signed token carries its payload, key and times; a ciphertext carries its key, iv and plaintext) with their algebraic laws proved as lemmas |
| `oauth_state.dfy` | `OAuthState` | the two-slot HMAC key pair and its rotation, the signed `state` of `/oauth/google/login`, and the state check of the callback |
| `oauth_server.dfy` | `OAuthServer` | the callback's guard chain, the user-record update, `/oauth/google/access_token`, and the `/api/v1/transaction` status ladder |
| `secrets.dfy` | `Secrets` | the memoising secret cache (`get`, `clearCache`) and the Secret Manager version name |
| `sheets_api.dfy` | `SheetsApi` | `cellA1` (the do-while loop as a method), `rangeA1` and the server's `addRow` request, plus a correct bijective column naming beside the one as written |
| `drive_client.dfy` | `DriveClient` | the spreadsheet schema, the `listFiles` query, the `createSpreadsheetFile` body, the client's `addRow` range, and `deleteRow`'s cut-paste request with its effect on the rows |
| `transaction_rows.dfy` | `TransactionRows` | the worksheet, the mapping of sheet rows to transaction records and the newest-first sort shared by `Summary` and `Details` |
| `details.dfy` | `Details` | the detail dialog and list of `Details`: empty/cloned records, the money strings, the category and payment-method handlers, save and delete on the worksheet's rows, distinct categories, and the month grouping loop |

Where the code and its documentation disagree, the model follows the code:

- The callback does not check the granted scopes.
- The state is signed to expire after 9 minutes, but it is verified with a 3-minute maximum age, so 3 minutes is the effective lifetime.
- Verification folds over the key pair with `reduceRight`. When both keys verify a token, slot 0's result is the one kept; both results carry the same payload.
- An `error` query parameter on the callback sends the redirect but does not stop the handler.

## Model

| member | source | states |
|---|---|---|
| `Crypto.Sign` | Server/server.js:225 | a signed token carries exactly the payload and the key it was signed with, and expires `expiresIn` seconds after it was issued |
| `Crypto.VerifySign` | Server/server.js:134 | verifying a token yields its payload exactly when the verifying key is the signer's and the token is neither expired nor older than `maxAge` |
| `Crypto.VerifyOnlySigned` | Server/server.js:134 | whatever verifies was signed with the verifying key, and it is younger than `maxAge`: a forged token never verifies |
| `Crypto.Encrypt` | Server/server.js:111-117 | the sealed record reports the iv it was encrypted under |
| `Crypto.DecryptEncrypt` | Server/server.js:111-125 | decryption inverts encryption under the same key and iv; any other key, iv or tag fails |
| `Crypto.DecryptOnlyGenuine` | Server/server.js:119-125 | whatever decrypts is exactly the encryption of its plaintext under that key and iv |
| `OAuthState.Rotated` | Server/server.js:100-106 | rotation keeps exactly two keys: old slot 1 moves to slot 0 and the fresh key takes slot 1; a generation error leaves the pair unchanged |
| `OAuthState.KeyPair.constructor` | Server/server.js:95-97 | the store starts with the two keys generated at startup |
| `OAuthState.KeyPair.Newest` | Server/server.js:225 | the signing key is one of the stored keys, the last one |
| `OAuthState.KeyPair.Rotate` | Server/server.js:98-109 | the in-place swap gives the rotated pair and keeps two keys |
| `OAuthState.IssueState` | Server/server.js:213-225 | the state is `{ts, ip, ua}` signed with the last key for 9 minutes |
| `OAuthState.LoginQuery` | Server/server.js:218-226 | the authorization query asks for `code`, `offline`, `consent` and the four scopes, and its state verifies back to the caller's payload at issue time |
| `OAuthState.LoginPageTarget` | Server/server.js:230-231 | the redirect goes to `/login.html`, with `?` and the query appended exactly when the query is not empty |
| `OAuthState.VerifyState` | Server/server.js:132-138 | the `reduceRight` fold over the key pair; its contract is stated by `VerifyStateSpec`, `StateAccepted`, `StaleStateRejected` and `ForeignStateRejected` |
| `OAuthState.VerifyStateSpec` | Server/server.js:132-138 | the fold yields a payload iff at least one stored key verifies the token with a 3-minute maximum age, and that payload is the token's own |
| `OAuthState.StateAccepted` | Server/server.js:132-138 | a token signed with either stored key and still fresh is accepted with its payload |
| `OAuthState.StaleStateRejected` | Server/server.js:134 | a token issued 3 minutes ago or earlier is rejected although it was signed for 9 |
| `OAuthState.ForeignStateRejected` | Server/server.js:132-138 | a forged token, or one signed with a key no longer stored, is rejected |
| `OAuthState.FreshStateVerifies` | Server/server.js:225 | a state just issued verifies to its own payload |
| `OAuthState.StateSurvivesOneRotation` | Server/server.js:98-109 | a state still verifies after one rotation, within its 3 minutes |
| `OAuthState.StateDiesAfterTwoRotations` | Server/server.js:98-109 | after two rotations with fresh keys, a state is rejected |
| `OAuthState.StateBoundToClient` | Server/server.js:139-142 | a state passes the binding check only for the ip and user agent it was issued to, and only within 3 minutes |
| `OAuthState.RotationLifetime` | Server/server.js:95-109 | on the key-pair object, a state issued before one rotation is accepted, and after a second rotation it is rejected |
| `OAuthServer.DecodedEmail` | Server/server.js:155 | reading the email succeeds exactly when the id token is a JWT; otherwise `.email` of null throws |
| `OAuthServer.CookieMaxAge` | Server/server.js:192 | the cookies expire ten seconds before the access token, in milliseconds |
| `OAuthServer.CallbackChain` | Server/server.js:131-195 | the callback after the error test; `res.cookie` throws on the NaN `maxAge` of a missing `expires_in`, and stores a missing access token as "undefined"; its contract is stated by `Callback`, `CallbackSucceedsExactly`, `MissingExpiryThrows`, `CallbackRejectsBadState`, `CallbackWritesOnlyAfterGuards` and `AccessTokenAfterLogin` |
| `OAuthServer.Callback` | Server/server.js:128-196 | an `error` parameter gives the 307 to `/login?...` and sets no cookies, but the rest of the chain runs, and its record write still happens |
| `OAuthServer.CallbackSucceedsExactly` | Server/server.js:128-196 | the callback logs in (307 to `/index.html`) iff there is no error, the state is bound to this client, and the answer has a truthy email, a truthy refresh token and an `expires_in` |
| `OAuthServer.MissingExpiryThrows` | Server/server.js:179-194 | an answer without `expires_in` passes every guard, but the first `res.cookie` throws on the NaN `maxAge`: the record write is already scheduled, and no cookie and no 307 are sent |
| `OAuthServer.CallbackRejectsBadState` | Server/server.js:139-142 | a state that fails or is bound to another client gives 401, before the code is exchanged and with nothing written |
| `OAuthServer.CallbackWritesOnlyAfterGuards` | Server/server.js:155-190 | a record write happens only after the state, email and refresh-token guards pass; it stores that email and refresh token at `now` |
| `OAuthServer.LoginRoundTrip` | Server/server.js:128-232 | a state issued by login and returned within 3 minutes, with a token answer that has an email, a refresh token and an `expires_in`, logs in, writes the record and sets both cookies with `maxAge` 1000 * (expires_in - 10) |
| `OAuthServer.ErrorDoesNotStopTheChain` | Server/server.js:129-130 | with an `error` parameter and an otherwise good callback, the reply is the login redirect while the record write still happens |
| `OAuthServer.NewUserDoc` | Server/server.js:180-184 | a new user's record has no access tokens, `register_time` now, version '1', and no refresh-token fields |
| `OAuthServer.UpdatedDoc` | Server/server.js:169-178 | the update touches only the four refresh-token fields and leaves the rest unchanged; a falsy token leaves the record unchanged; the stored ciphertext decrypts to the token |
| `OAuthServer.UserData.FromDoc` | Server/server.js:186 | the mutable record starts as the stored document |
| `OAuthServer.UserData.Update` | Server/server.js:169-178 | the in-place update yields `UpdatedDoc` of the old record |
| `OAuthServer.PersistLogin` | Server/server.js:179-190 | a new user gets one `set` of the default record updated; an existing user gets a revoke of the stored ciphertext, then a `set` of the updated stored record |
| `OAuthServer.PersistedDoc` | Server/server.js:179-189 | the record `set` stores, for a new or an existing user; its contract is stated by `PersistedDocSpec` |
| `OAuthServer.PersistedDocSpec` | Server/server.js:166-190 | the stored record decrypts to the new refresh token with time now; an existing user keeps access tokens, register time and version; a new user gets the defaults |
| `OAuthServer.AccessTokenEndpoint` | Server/server.js:198-204 | the endpoint returns the cookie's token iff the cookie is truthy, and 401 otherwise |
| `OAuthServer.AccessTokenAfterLogin` | Server/server.js:192-204 | after a successful callback, the access-token endpoint returns the access token from the exchange; a missing one was stored as "undefined" and that text is returned; an empty one is refused with 401 |
| `OAuthServer.TransactionRow` | Server/server.js:259-270 | the row has 10 cells in schema order: the time or now, the amount filtered to `[0-9.-]`, then the eight fields as given |
| `OAuthServer.TransactionLadder` | Server/server.js:239-274 | 400 when email, token or transaction is missing; 403 with no record; 403 with no matching access token; a refresh only with the decrypted stored token; 401 iff the refresh gives no access token; an append happens iff the answer is 200 or 500, with the refreshed token, and 500 iff the append fails; with the guards passed, 403 when the stored refresh token is falsy or its iv is missing |
| `OAuthServer.TransactionSucceeds` | Server/server.js:249-274 | when every guard passes, the stored token decrypts and the refresh answers an access token, the row is appended and the answer is 500 exactly when the append fails, 200 otherwise |
| `OAuthServer.HandleTransaction` | Server/server.js:235-275 | the handler as a guard ladder; its contract is stated by `TransactionLadder`, `TransactionSucceeds`, `TransactionAppend` and `WrongKeyThrows` |
| `OAuthServer.TransactionAppend` | Server/server.js:259-271 | the append goes to the request's spreadsheet and the `transactions` worksheet, and it carries the filtered amount |
| `OAuthServer.FreshUserCannotPost` | Server/server.js:241-246 | a user whose record was just created has no access tokens, so every complete post is refused with 403 and an incomplete one with 400, in both cases before the refresh grant and without an append |
| `OAuthServer.RefreshUsesStoredToken` | Server/server.js:247-256 | the refresh uses exactly the refresh token the last login stored |
| `OAuthServer.WrongKeyThrows` | Server/server.js:250-255 | decrypting with another key throws, so no status is sent and nothing is appended |
| `Secrets.SecretVersionName` | Server/secrets.js:35 | the Secret Manager version name; its contract is stated by `VersionNameRoundTrip` |
| `Secrets.VersionNameRoundTrip` | Server/secrets.js:35 | the version name is `projects/<project>/secrets/<name>/versions/latest`, and it parses back to the project and secret names |
| `Secrets.SecretStore.constructor` | Server/secrets.js:5-6 | the cache starts empty |
| `Secrets.SecretStore.Get` | Server/secrets.js:25-40 | a truthy cached value is returned without loading; otherwise the value is loaded from the file or from Secret Manager by version name, stored and returned |
| `Secrets.SecretStore.ClearCache` | Server/secrets.js:42-44 | the cache is empty afterwards |
| `Secrets.RepeatedGet` | Server/secrets.js:25-40 | a second `get` returns the first value without loading when that value is truthy, and loads again when it is falsy |
| `Secrets.GetAfterClear` | Server/secrets.js:42-44 | after `clearCache`, the next `get` loads from its source |
| `SheetsApi.RoundDiv26` | Server/googleapis.js:12-13 | `Math.round(column / 26)` is below `column` for every positive column, so the loop terminates |
| `SheetsApi.ColumnLetters` | Server/googleapis.js:10-13 | the column text ends with the letter of `column % 26` |
| `SheetsApi.ColumnLettersAreLetters` | Server/googleapis.js:8-13 | the column text is non-empty and consists only of `A`..`Z` |
| `SheetsApi.CellA1` | Server/googleapis.js:7-15 | the do-while loop computes the column letters followed by the 1-based row, or no digits for a null row |
| `SheetsApi.SingleLetterColumns` | Server/googleapis.js:10-13 | columns 0..12 are the single letter `'A' + column` |
| `SheetsApi.DocumentedExamples` | Server/googleapis.js:3-5 | (0, 1) gives "A2" and (2, null) gives "C" |
| `SheetsApi.CellShape` | Server/googleapis.js:14 | a cell is its column letters followed by digits whose value is `row + 1`, or by nothing for a null row |
| `SheetsApi.Cell` | Server/googleapis.js:7-15 | the value `cellA1` returns; its contract is stated by `CellShape`, `SingleLetterColumns`, `DocumentedExamples` and `CellA1` |
| `SheetsApi.RangeA1` | Server/googleapis.js:24-26 | `rangeA1`; its contract is stated by `RangeA1RoundTrip` |
| `SheetsApi.RangeA1RoundTrip` | Server/googleapis.js:24-26 | a range is the quoted worksheet name, `!`, and the two cells joined by `:`; it parses back to the name and both cells |
| `SheetsApi.AddRow` | Server/googleapis.js:37-49 | the append request carries the row as the single `ROWS` value with `RAW` input, to the given spreadsheet and range |
| `SheetsApi.RangeReadsBack` | Server/googleapis.js:38 | the server's append range reads back as the worksheet, column 0 and column `row.length-1` |
| `SheetsApi.WholeColumnRange` | Server/googleapis.js:38 | the server's append range has whole columns, with no row digits |
| `SheetsApi.TenColumnRange` | Server/googleapis.js:38 | a 10-cell transaction row is appended to `A:J` |
| `SheetsApi.SheetsColumnLetters` | Server/googleapis.js:10-13 | the corrected column text is non-empty and consists only of letters |
| `SheetsApi.SheetsColumnRoundTrip` | Server/googleapis.js:10-13 | the corrected column text names exactly its column in the spreadsheet's A, ..., Z, AA, ... order |
| `SheetsApi.AgreeOnSingleLetters` | Server/googleapis.js:10-13 | the loop as written and the corrected naming agree on columns 0..12 |
| `SheetsApi.ColumnThirteenMisnamed` | Server/googleapis.js:12 | column 13 is named "BN", which the spreadsheet reads as column 65, and column 26 is named "BA" instead of "AA" |
| `DriveClient.SchemaColumns` | Client/src/google-drive.ts:15-19 | the schema has exactly three worksheets, and `transactions` has the 10 columns Time..Description |
| `DriveClient.TransactionColumnsDistinct` | Client/src/google-drive.ts:16 | the transaction column names are pairwise different |
| `DriveClient.ListFilesQuery` | Client/src/google-drive.ts:29 | the `q` text before URI encoding; its contract is stated by `ListFilesQueryRoundTrip` |
| `DriveClient.ListFilesQueryRoundTrip` | Client/src/google-drive.ts:29 | the query is `trashed=false`, with ` and '<id>' in parents` appended exactly when a parent is given, and for that very parent |
| `DriveClient.CreateSpreadsheetBody` | Client/src/google-drive.ts:63-69 | the body names the spreadsheet with the sheets MIME type, and it has `parents = [id]` exactly when the folder id is truthy |
| `DriveClient.EmptyParentTreatedDifferently` | Client/src/google-drive.ts:29 | an empty parent id restricts the listing, yet it is not set as a parent of a new spreadsheet |
| `DriveClient.ClientAddRow` | Client/src/google-drive.ts:133-145 | the client's append sends the row as the single `ROWS` value with `USER_ENTERED` input |
| `DriveClient.ClientAddRowRangeSpan` | Client/src/google-drive.ts:134 | the client's append range spans row index 0 only ("1"), from column A to column `row.length-1` |
| `DriveClient.HeaderRowRange` | Client/src/google-drive.ts:134 | a 10-column header row goes to `A1:J1` |
| `DriveClient.DeleteRowRequest` | Client/src/google-drive.ts:211-223 | the cut-paste stays within one worksheet, starting at `row+1` and pasting at `row`, column 0, without borders |
| `DriveClient.CutPasteRows` | Client/src/google-drive.ts:211-223 | a same-sheet cut-paste moves the cut rows up to the destination and clears the rows left behind |
| `DriveClient.DeleteRowShiftsUp` | Client/src/google-drive.ts:204-229 | deleteRow removes exactly row `row` and shifts every later row up by one, leaving an empty last row |
| `TransactionRows.Worksheet.constructor` | Client/src/google-drive.ts:2-7 | a worksheet holds its id, name, header and rows |
| `TransactionRows.FindTransactionSheet` | Client/src/details/details.tsx:254-255 | the index is that of the first worksheet named `transactions`, or -1 exactly when there is none |
| `TransactionRows.ColumnIndex` | Client/src/summary/Summary.tsx:43 | `columnIndex.get(name) ?? -1`; its contract is stated by `ColumnIndexIsLastOccurrence` and `SchemaColumnIndex` |
| `TransactionRows.RowTime` | Client/src/summary/Summary.tsx:47 | `new Date(row[columnIndex.get('Time') ?? -1])`, with the date parser as a parameter; its contract is stated by `RowTimeSpec` |
| `TransactionRows.RowTimeSpec` | Client/src/summary/Summary.tsx:43-47 | a row's time is the parse of its cell under the last "Time" header; it is Invalid Date when the header has no "Time" column or the row is too short to reach it |
| `TransactionRows.ColumnIndexIsLastOccurrence` | Client/src/summary/Summary.tsx:43 | `new Map(columns.map(...))` gives each name the index of its last occurrence, and -1 for a name not in the header |
| `TransactionRows.SchemaColumnIndex` | Client/src/summary/Summary.tsx:43 | in the schema header, each column name maps to its own position |
| `TransactionRows.RowCell` | Client/src/summary/Summary.tsx:48 | a cell exists exactly when the index is inside the row |
| `TransactionRows.MissingColumnIsEmpty` | Client/src/summary/Summary.tsx:48-55 | a column missing from the header yields '' |
| `TransactionRows.ShortRowIsEmpty` | Client/src/summary/Summary.tsx:48-55 | a row too short for the column yields '' |
| `TransactionRows.MapRow` | Client/src/summary/Summary.tsx:45-46 | a record's `row` is the index of its row in `values` |
| `TransactionRows.MapRows` | Client/src/summary/Summary.tsx:44-56 | one record per row, in row order, each mapped from its own row and index |
| `TransactionRows.SchemaRowFields` | Client/src/summary/Summary.tsx:44-56 | for the schema header, each field is its schema cell, and the position is the Latitude text, ', ', then the Longitude text |
| `TransactionRows.Compare` | Client/src/summary/Summary.tsx:57 | the comparator `b.time - a.time`; the order it induces is stated by `InsertKeepsOrder` and `SortNewestFirstSorts` |
| `TransactionRows.Insert` | Client/src/summary/Summary.tsx:57 | inserting adds exactly one record to the multiset |
| `TransactionRows.SortNewestFirst` | Client/src/summary/Summary.tsx:57 | the sort is a permutation of its input |
| `TransactionRows.InsertKeepsOrder` | Client/src/summary/Summary.tsx:57 | inserting a record with a valid time into a newest-first list keeps it newest-first |
| `TransactionRows.SortNewestFirstSorts` | Client/src/summary/Summary.tsx:57 | when every time is valid, the result is ordered by time, most recent first |
| `TransactionRows.LoadTransactions` | Client/src/summary/Summary.tsx:38-57 | the worksheet lookup, row mapping and sort; its contract is stated by `LoadTransactionsSpec` |
| `TransactionRows.LoadTransactionsSpec` | Client/src/summary/Summary.tsx:39-57 | without a transactions worksheet, there are no records; otherwise there is one record per row, a permutation of the mapped rows, each knowing a row index in range, newest first when all times are valid |
| `Details.RestrictMoneyInput` | Client/src/details/details.tsx:194-199 | `restrictMoneyInput` as written; its contract is stated by `RestrictedFraction`, `RestrictMoneyInputIdempotent` and `FractionPaddedAtStart` |
| `Details.RestrictMoneyInputCorrected` | Client/src/details/details.tsx:194-199 | `restrictMoneyInput` with the cents padded at the end; its contract is stated by `RestrictedFraction` and `RestrictMoneyInputIdempotent` |
| `Details.FormatMoney` | Client/src/details/details.tsx:145-154 | `formatMoney` with the currency format as a parameter; its contract is stated by `FormatMoneyCents` and `SavePathUnaffected` |
| `Details.RestrictMoneyInputIdempotent` | Client/src/details/details.tsx:194-199 | restricting an already restricted amount changes nothing, for both the as-written and the corrected versions |
| `Details.RestrictedFraction` | Client/src/details/details.tsx:194-199 | from an integer and a digit fraction, the as-written restriction pads the first two digits at the start, and the corrected one pads them at the end |
| `Details.RestrictMoneyInputSigned` | Client/src/details/details.tsx:194-197 | `restrictMoneyInput` with the cents padded at the end and the sign of an amount between -1 and 0 kept; its contract is stated by `NegativeAmountStaysNegative` and `SignedDiffersOnlyBySign` |
| `Details.NegativeCentsLoseSign` | Client/src/details/details.tsx:195-196 | "-0.50" is restricted to "0.50", as written and with the end padding alike, because `BigInt("-0")` is 0n; the signed version gives "-0.50" |
| `Details.NegativeCentsFormatAsPositive` | Client/src/details/details.tsx:146-151 | `formatMoney` hands the formatter 0 for "-0.50", so "-0.50" is shown exactly as "0.50" is |
| `Details.NegativeAmountStaysNegative` | Client/src/details/details.tsx:194-197 | for "-", digits, "." and digits, the signed restriction gives "-", the digits' value, '.' and the fraction cut to two and padded at the end, whether or not the value is zero |
| `Details.SignedDiffersOnlyBySign` | Client/src/details/details.tsx:194-197 | the signed restriction fails exactly when the corrected one does, and otherwise gives the same text or that text behind a '-' |
| `Details.FractionPaddedAtStart` | Client/src/details/details.tsx:198 | "1.5" is restricted to "1.05" as written, and to "1.50" when corrected |
| `Details.FormatMoneyCents` | Client/src/details/details.tsx:145-154 | formatMoney's fraction is the first two digits padded at the end; it denotes the fraction truncated to whole cents |
| `Details.SavePathUnaffected` | Client/src/details/details.tsx:172-198 | an amount formatted by formatMoney is restricted identically by both versions, so the padStart defect does not reach a save from a formatted amount |
| `Details.NewEmptyTransaction` | Client/src/details/details.tsx:24-26 | `row` defaults to -1, `amount` is '0', `time` is now, and every other string field is '' |
| `Details.CloneTransaction` | Client/src/details/details.tsx:28-31 | cloning null gives the empty transaction; otherwise the clone equals the original field for field |
| `Details.SetField` | Client/src/details/details.tsx:244 | setting a field changes that field only |
| `Details.FieldsDetermineRecord` | Client/src/details/details.tsx:10-21 | two records with the same row, time and string fields are the same record |
| `Details.SetFieldUnchanged` | Client/src/details/details.tsx:244 | setting a field to its current value leaves the record unchanged |
| `Details.FieldChanged` | Client/src/details/details.tsx:241-247 | the field handler sets the field on a clone of the current record, keeping row and time (or on an empty one) |
| `Details.AppendIfAbsent` | Client/src/details/details.tsx:214-219 | the value is appended exactly when absent, and the list is unchanged otherwise; the old list is a prefix, nothing else is added, and a duplicate-free list stays duplicate-free |
| `Details.SetCategory` | Client/src/details/details.tsx:201-220 | the category handler sets the dialog's and the record's category and appends it to the categories if absent |
| `Details.SetPaymentMethod` | Client/src/details/details.tsx:221-240 | the payment-method handler sets the payment method, but appends it to the categories list, leaving the payment methods alone |
| `Details.SetPaymentMethodCorrected` | Client/src/details/details.tsx:221-240 | the corrected handler appends the payment method to the payment-method list and leaves the categories alone |
| `Details.NewPaymentMethodListedAsCategory` | Client/src/details/details.tsx:234-239 | a new payment method ends up among the categories and not among the payment methods; the corrected handler does the opposite |
| `Details.SetCategoryIdempotent` | Client/src/details/details.tsx:201-220 | choosing the same category twice gives the same dialog as choosing it once |
| `Details.Distinct` | Client/src/details/details.tsx:367-368 | the distinct list has no duplicates and exactly the values of its input |
| `Details.DistinctInFirstOccurrenceOrder` | Client/src/details/details.tsx:367-368 | the distinct values come in the order of their first occurrence, as a `Set`'s keys do |
| `Details.DistinctAppend` | Client/src/details/details.tsx:367-368 | the distinct values of a list with one more value are the old ones with that value appended if absent |
| `Details.Categories` | Client/src/details/details.tsx:367 | the categories are those of the records, in order |
| `Details.PaymentMethods` | Client/src/details/details.tsx:368 | the payment methods are those of the records, in order |
| `Details.PositionRoundTrip` | Client/src/details/details.tsx:251-252 | splitting a mapped position at ',' and trimming gives back the latitude and longitude cells, when they have no comma and no surrounding spaces |
| `Details.SavedRow` | Client/src/details/details.tsx:249-252 | a row is saved exactly when the amount restricts; it has 10 cells, with the restricted amount second |
| `Details.RowCells` | Client/src/details/details.tsx:252 | the saved row is the time text, amount, category, name, merchant, payment method, location, latitude, longitude and description, in schema order |
| `Details.SaveAfterLoad` | Client/src/details/details.tsx:249-252 | saving a loaded record unchanged writes back its row's cells from Category on, with the time and the restricted amount in front |
| `Details.SetRow` | Client/src/details/details.tsx:259 | `values[row] = row` replaces only that index; a negative index changes nothing, and writing past the end pads with empty rows |
| `Details.NewTransactionAppends` | Client/src/details/details.tsx:391 | saving a new transaction, whose row is `values.length`, appends exactly one row |
| `Details.RemoveAt` | Client/src/details/details.tsx:281 | the filter drops exactly index `row` and keeps the others in order; an index outside the list changes nothing |
| `Details.SaveRangeSpan` | Client/src/details/details.tsx:266 | the save writes `A<row+2>:J<row+2>`, the sheet line below the header that holds the record |
| `Details.DeleteAgrees` | Client/src/details/details.tsx:281-288 | the local filter and the remote cut-paste at `row+1` leave the same rows under the header, up to the cleared last line |
| `Details.SaveTransactionDetail` | Client/src/details/details.tsx:249-272 | no record: nothing happens; an unparseable amount: nothing happens; otherwise only the transactions worksheet's `values[row]` is replaced, and a missing worksheet leaves every sheet unchanged |
| `Details.ReplaceRow` | Client/src/details/details.tsx:253-265 | only the first transactions worksheet's rows change, to `SetRow` of them |
| `Details.DeleteTransaction` | Client/src/details/details.tsx:273-290 | no record: nothing happens; otherwise only the transactions worksheet loses index `row`, and a missing worksheet leaves every sheet unchanged |
| `Details.SameMonth` | Client/src/details/details.tsx:369 | `isSameMonth`: same year and month, false whenever either date is invalid; used by `MonthRunEnd`, `InvalidTimeStallsGrouping` and `MonthGroupsPartition` |
| `Details.MonthRunEnd` | Client/src/details/details.tsx:374 | the inner loop stops at the first record outside the month, and every record before it is in the month |
| `Details.GroupingPass` | Client/src/details/details.tsx:371-377 | one pass of the outer loop as written collects the run of records in the month of `t[i]`, starting at `t[i]` itself |
| `Details.InvalidTimeStallsGrouping` | Client/src/details/details.tsx:369-377 | at a record with an Invalid Date, a pass collects nothing and does not advance, so the loop never ends |
| `Details.ValidTimeAdvances` | Client/src/details/details.tsx:371-377 | at a record with a valid time, a pass always advances past it |
| `Details.MonthGroupsPartition` | Client/src/details/details.tsx:369-377 | the groups concatenate to the list; each is non-empty with every member in its first member's month; a new group starts exactly where the month changes |
| `Details.GroupByMonth` | Client/src/details/details.tsx:370-377 | the loop builds those month groups of the sorted list |
| `Details.CollectMonth` | Client/src/details/details.tsx:373-375 | the inner loop collects exactly the run of records from `start` in the month of `t[start]` |
| `Details.LoadDetails` | Client/src/details/details.tsx:351-378 | with the corrected month grouping of `GroupByMonth` in place of the loop as written (which never ends on an Invalid Date), the month groups flatten to the newest-first records, and categories and payment methods are the distinct values in first-occurrence order |
| `Text.DecimalRoundTrip` | Server/googleapis.js:14 | `(row + 1).toString()` reads back as the number it was made from |
| `Text.IntDecimalRoundTrip` | Client/src/details/details.tsx:197-198 | `BigInt` of an integer's decimal text gives back the integer |
| `Text.SplitJoin` | Client/src/details/details.tsx:195 | joining the pieces of `split` with the separator gives back the string |
| `Text.JoinSplit` | Server/secrets.js:35 | splitting a join of separator-free pieces gives back the pieces |
| `Text.KeepOnlyCounts` | Server/server.js:261 | the `[^0-9.-]` filter keeps every allowed character as often as it occurs and drops every other character |
| `Text.KeepOnlyIdentity` | Client/src/details/details.tsx:195 | the filter leaves an already filtered string unchanged |
| `Text.TrimDropsLeadingSpaces` | Client/src/details/details.tsx:252 | `trim` ignores leading spaces |

## Left out

- The cryptography itself (HS512 JWTs, AES-256-GCM, `crypto.generateKey`, `jwt.decode`) is modelled symbolically. A token records its signer, payload and times, and a ciphertext records its key, iv and plaintext. Forgery is the `Forged` token and nothing else. Key length, hex encoding and the algorithm names are not modelled.
- The key generation and `setInterval` timer are not modelled. Rotation is the explicit `Rotate(generated)` method, and a failed generation is `None`. The startup race, where the two initial keys arrive asynchronously, is not modelled either: the pair starts with two keys.
- Network I/O is not modelled. That covers every `fetch`: the token exchange, revoke, `getNewAccessToken` and the Sheets/Drive endpoints. The token endpoint's answer, the refresh answer and whether the append fails are parameters. `listFiles`, `createFolder`, `createSpreadsheetFile`, `addRow` and `deleteRow` are modelled by the request they send. `initSpreadsheet`, `createFolder`'s body, `addWorksheets`, `getSpreadsheet`, `getValues` and `updateValues` are not modelled.
- Firestore's `docRef.get`/`set` are not modelled. The stored record is a parameter, and the write is the list of calls `PersistLogin` makes. That the write runs after the redirect is sent, unawaited, is not modelled.
- Express wiring, cookie flags (`httpOnly`, `sameSite`, `secure`), `X-Frame-Options`, the `google_oauth_uri` cookie, static serving, the hostname lookup and the startup chain are not modelled.
- `OAuthServer.CallbackChain`: two behaviours of Express's `res.cookie` are taken as given, not modelled from Express's code. It stores `String(value)`, so a missing access token becomes "undefined". It throws on a `maxAge` that is not a number.
- The form encoding of the login query and the callback's redirect query string are not modelled. The login redirect target is modelled on the encoded query text.
- The secret loaders are oracles passed to `SecretStore.Get`: `require` of a JSON file and Secret Manager's `accessSecretVersion`. `init`, the environment variable and the client construction are not modelled; production is a flag of the store.
- `Secrets.SecretStore.Get`: the loader oracles are total. A loader that fails is not modelled: `require` of a missing file throwing, or `accessSecretVersion` rejecting. In the source, `get` then rejects and caches nothing.
- `DriveClient.ListFilesQuery`: the query is the text before `encodeURIComponent`. The percent-encoding is not modelled.
- `Intl.NumberFormat` currency formatting is the parameter `formatUsd`.
- `Date` parsing and printing are parameters: `parseTime` for `new Date(cell)`, and the time text of a saved or posted row. A Date is a valid instant with its local year and month, or Invalid Date.
- React rendering and hooks are not modelled: `DropDownList`, `DatetimeSelector`, the modal, and the `useEffect`/`useMemo` wiring. `Client/src/Main.tsx`, `Client/src/login/Login.tsx` and `vite.config.ts` are not part of this model either. The handlers are modelled on a `Dialog` value holding the dialog's state.
- `Details.SetCategory`: only the string form of the handler is modelled. The updater-function form computes the same value through React's state queue.
- `TransactionRows.Worksheet.constructor`: only the rows change after loading. The spreadsheet's `id`/`name` wrapper object that save and delete rebuild is not modelled, because it carries no data of its own.
- `Details.SetRow`: a JavaScript array hole left by writing past the end is modelled as an empty row.
- `SheetsApi.CellA1`: the column is a `nat`. A negative column (`row.length - 1` of an empty row) is not modelled; no caller passes an empty row.
- `OAuthServer.TransactionLadder`: a body whose `transaction.amount` is not a string throws in the source. The model takes the amount as text.
- The transaction comparator on Invalid Date (`NaN`) is modelled as "not before". The result order of a list holding an Invalid Date is not claimed; `TransactionRows.SortNewestFirstSorts` requires valid times.

## Findings

| source | as written | input that shows it | evidently intended | confidence | as-written member | corrected member |
|---|---|---|---|---|---|---|
| Server/googleapis.js:12 | the column loop divides with `Math.round(column / 26)` and never subtracts one | column 13 gives "BN" (column 65), and column 26 gives "BA" | bijective base-26 names A..Z, AA, AB, ... as the spreadsheet reads them | not executed | `SheetsApi.ColumnThirteenMisnamed` | `SheetsApi.SheetsColumnRoundTrip` |
| Client/src/details/details.tsx:198 | `restrictMoneyInput` pads the cents with `padStart` | "1.5" gives "1.05" | "1.50", padded at the end as `formatMoney` pads | not executed | `Details.FractionPaddedAtStart` | `Details.RestrictedFraction` |
| Client/src/details/details.tsx:195-196 | the integer part goes through `BigInt`, and `BigInt("-0")` is 0n, which prints without a sign | "-0.50" gives "0.50", and `formatMoney` formats it as it formats "0.50" | "-0.50": an amount between -1 and 0 stays negative | not executed | `Details.NegativeCentsLoseSign` | `Details.NegativeAmountStaysNegative` |
| Client/src/details/details.tsx:234-239 | the payment-method handler appends the new value to the categories list | a new payment method "Visa" becomes a category and not a payment method | append to the payment-methods list | not executed | `Details.NewPaymentMethodListedAsCategory` | `Details.SetPaymentMethodCorrected` |
| Client/src/details/details.tsx:369-377 | the outer loop relies on `isSameMonth(t[i].time, t[i].time)` being true | a row whose Time is missing or unparseable (Invalid Date): the inner loop adds nothing and `i` never advances | that record forms a group (or is skipped) and the loop goes on | not executed | `Details.InvalidTimeStallsGrouping` | `Details.GroupByMonth` |

The model uses the corrected members where they matter:

- `RestrictMoneyInputCorrected`, `SetPaymentMethodCorrected` and `GroupByMonth` stand beside the as-written `RestrictMoneyInput`, `SetPaymentMethod` and `GroupingPass`.
- `RestrictMoneyInputSigned` records the sign fix beside `RestrictMoneyInputCorrected`. The dialog's save keeps the `restrictMoneyInput` of the application. In the dialog, `formatMoney` has already dropped the sign of an amount between -1 and 0 (`NegativeCentsFormatAsPositive`) before any save restricts it, so a signed restriction alone would not bring the sign back.
- `Details.SavePathUnaffected` shows that the `padStart` defect is latent in the dialog. The amount a save restricts is always `formatMoney` output, or `restrictMoneyInput` of it: typing into the amount field changes the record, and the record's change re-formats the amount. A two-digit fraction is the same under either padding. The defect shows only when `restrictMoneyInput` is called on other text.
