# NOU admin: bulk member import, referral and dues views, request gate

This project models the core of the NOU party's administration site (a Next.js
application) in Dafny and proves properties of that model:

- **Bulk member import** (`POST /api/membres/import`). A CSV spreadsheet is
  parsed: a byte-order mark is stripped, blank lines are dropped, and every
  cell is split on commas and trimmed. Each data row is then validated: ten
  mandatory columns must be filled, the email, principal phone, NIN and NIF
  must not already be stored, and a given referral code must belong to a
  member. An accepted row gets a membership code (`A` + initials + the last
  four phone digits, with a numeric suffix until free) and a username
  (`prenom.nom`, suffixed likewise). It is normalised into an insert and
  stored. The handler returns a result counting created and skipped lines.
- **Import template** (`GET /api/membres/template`): the 39-column header line
  and an example line, behind a byte-order mark, and what the import makes of
  that file.
- **Dues card** (`components/cotisation-status.tsx`): the total paid against
  the annual 1500 HTG, the balance, completion, and the two installment hints.
- **Referral page** (`app/dashboard/parrainage/page.tsx`): the sponsor
  statistics, the filleuls (sponsored members) of a sponsor, the top-ten
  sponsor ranking (a map tally, then a sort and a slice), the search filter
  and the tree view.
- **Image URLs** (`getImageUrl` of `lib/api/albumService.ts`).
- **Request gate** (`middleware.ts`): public paths, the session cookie and
  the matcher.

The modules follow the source files:

| module | file | models |
|---|---|---|
| `Wrappers` | `wrappers.dfy` | `Option` and `Result` |
| `Strings` | `strings.dfy` | the JavaScript string built-ins used (`trim`, `split`, `join`, `startsWith`, `includes`, ASCII case mapping) |
| `CsvParse` | `csv_parse.dfy` | `parseCSV` |
| `Validation` | `validation.dfy` | `validateRow` |
| `Identifiers` | `identifiers.dfy` | `generateCodeAdhesion` and `generateUsername` |
| `Normalize` | `normalize.dfy` | the `insertData` object |
| `MemberStore` | `member_store.dfy` | the `membres` table as a class with its looked-up columns |
| `ImportPipeline` | `import_pipeline.dfy` | the `POST` handler and its loop, both as methods over the table and as specification functions |
| `ImportProperties` | `import_properties.dfy` | what a whole import guarantees |
| `Template` | `template.dfy` | the template endpoint and the round trip through the parser |
| `Cotisation` | `cotisation.dfy` | the dues summary and hints |
| `Parrainage` | `parrainage.dfy` | the referral page's computations |
| `Album` | `album.dfy` | `getImageUrl` |
| `Middleware` | `middleware.dfy` | the gate and its matcher |

The database, the hashing library and the JWT library are parameters:
- The table is a `MemberTable` object holding the looked-up column values.
- The bcrypt hash is a `passwordHash` string.
- An insert that throws is a `faults` map from line number to error message.
- A connection failure is a `connectError` option.
- `verifyToken` is a predicate on the token.

## Model

| member | source | states |
|---|---|---|
| CsvParse.ParseCsvRows | app/api/membres/import/route.ts:142-169 | the method, with its line loop and field loop, computes the parser's specification `ParseCsv` (a thrown error is `Failure`) |
| CsvParse.RowsFromLines | app/api/membres/import/route.ts:157-166 | the loop pushes one row per data line, in order |
| CsvParse.ZipRow | app/api/membres/import/route.ts:160-162 | the `forEach` builds the row the header/value zip defines |
| CsvParse.RowOf | app/api/membres/import/route.ts:153-162 | a row's keys are exactly the header names |
| CsvParse.NonBlank | app/api/membres/import/route.ts:148 | the kept lines are non-blank and never more numerous than the input |
| CsvParse.NonBlankAppend | app/api/membres/import/route.ts:148 | the filter distributes over concatenation, so with `NonBlankOne` every non-blank line is kept, in file order |
| CsvParse.ParseCsvFailsIff | app/api/membres/import/route.ts:148-151 | parsing fails exactly when fewer than two lines are non-blank, with the source's message |
| CsvParse.ParseCsvRowsAre | app/api/membres/import/route.ts:148-166 | on success there is one row per data line, and a header that occurs once maps to that line's k-th trimmed field (or `''` if there is none) |
| CsvParse.RowOfAt | app/api/membres/import/route.ts:160-162 | header k maps to `values[k] \|\| ''` when it is the last occurrence of that name |
| CsvParse.RowOfValues | app/api/membres/import/route.ts:160-162 | every value of a row is one of the line's fields or the empty string |
| CsvParse.ParsedValuesHaveNoComma | app/api/membres/import/route.ts:153-158 | no parsed value contains a comma |
| CsvParse.BomIgnored | app/api/membres/import/route.ts:143-146 | a leading U+FEFF does not change the parse |
| CsvParse.LeadingSpaceIgnored | app/api/membres/import/route.ts:148-158 | leading white space (other than a separator) does not change the parse of BOM-free text |
| Strings.Trim | app/api/membres/import/route.ts:153 | `trim` leaves no white space at either end |
| Strings.Split | app/api/membres/import/route.ts:148 | `split` yields at least one part and no part holds the separator |
| Strings.JoinOfSplit | app/api/membres/template/route.ts:91-94 | joining a split with its separator gives back the text |
| Strings.SplitOfJoin | app/api/membres/template/route.ts:91-94 | splitting a join gives back the parts when none holds the separator |
| Strings.NatStrInjective | app/api/membres/import/route.ts:107 | different suffix numbers render as different text |
| Validation.CheckRequired | app/api/membres/import/route.ts:180-189 | the ten mandatory checks produce exactly the `MissingErrors` list, in the source's order |
| Validation.CheckLookups | app/api/membres/import/route.ts:192-241 | the duplicate and referral lookups produce exactly `LookupErrors` against the table's columns |
| Validation.CheckTaken | app/api/membres/import/route.ts:192-200 | a given value is reported exactly when its column already holds it |
| Validation.CheckReferral | app/api/membres/import/route.ts:232-241 | a given, non-blank referral code is reported exactly when no member has it as membership code |
| Validation.ValidateRow | app/api/membres/import/route.ts:172-244 | `validateRow` returns `RowErrors` for the table's current columns |
| Validation.ValidationEmptyIff | app/api/membres/import/route.ts:172-244 | the error list is empty exactly when every mandatory column is filled, no given email/phone/NIN/NIF is stored and a non-blank referral code is a stored code |
| Validation.MissingErrorsEmptyIff | app/api/membres/import/route.ts:180-189 | no mandatory error exactly when every checked column is non-empty |
| Validation.ValidationErrorsShape | app/api/membres/import/route.ts:172-244 | every error carries the row's line number and names a checked column, never `general` |
| Validation.RequiredFieldsChecked | app/api/membres/import/route.ts:180-189 | the mandatory columns are checked columns, none named `general` |
| Validation.MissingFieldReported | app/api/membres/import/route.ts:180-189 | each blank mandatory column is reported with its own message |
| Validation.TakenReported | app/api/membres/import/route.ts:192-241 | a stored email, phone, NIN, NIF and an unknown referral code are each reported with their message and value |
| Identifiers.Digits | app/api/membres/import/route.ts:81 | `replace(/\D/g,'')` keeps only decimal digits and never lengthens |
| Identifiers.DigitsAppend | app/api/membres/import/route.ts:81 | the digit filter distributes over concatenation, so with `DigitsOne` every digit of the phone is kept, in order |
| Identifiers.KeepUsernameChars | app/api/membres/import/route.ts:120 | the filter keeps only `[a-z0-9._]` |
| Identifiers.KeepUsernameCharsAppend | app/api/membres/import/route.ts:120 | the filter distributes over concatenation, so with `KeepUsernameCharsOne` every `[a-z0-9._]` character is kept, in order |
| Identifiers.GenerateCodeAdhesion | app/api/membres/import/route.ts:75-112 | the lookup loop returns `CodeAdhesion`: the first free candidate `base`, `base1`, `base2`, … or the thrown error |
| Identifiers.GenerateUsername | app/api/membres/import/route.ts:115-139 | the lookup loop returns `Username`: the first free candidate `base`, `base2`, `base3`, … |
| Identifiers.CodeAdhesionSpec | app/api/membres/import/route.ts:81-109 | the code fails exactly when a name is empty or the phone has fewer than four digits; otherwise it is `A`, the upper-cased initials, the last four digits, then digits only, and is not yet stored |
| Identifiers.UsernameSpec | app/api/membres/import/route.ts:120-136 | the username is not yet stored, uses only `[a-z0-9._]`, and starts with the base |
| Identifiers.FirstFreeIsFirst | app/api/membres/import/route.ts:97-109 | the chosen candidate is free, all earlier ones are taken, and the search stops within `\|taken\|` steps |
| Identifiers.FirstFreeUnique | app/api/membres/import/route.ts:97-109 | any free candidate whose predecessors are all taken is the one chosen |
| Identifiers.FirstFreeFrom | app/api/membres/import/route.ts:97-109 | the search from index k returns a free candidate after only taken ones, within the pending count |
| Identifiers.CandidatesDistinct | app/api/membres/import/route.ts:107 | two suffixes never give the same candidate |
| Identifiers.BaseUsernameOfLetters | app/api/membres/import/route.ts:120 | ASCII-letter names give `prenom.nom` in lower case |
| Identifiers.JeanDupontCode | app/api/membres/import/route.ts:87-109 | Jean Dupont, phone 50912345678, gets `AJD5678`, then `AJD56781` once that is taken |
| Identifiers.JeanDupontUsername | app/api/membres/import/route.ts:120-136 | Jean Dupont gets `jean.dupont`, then `jean.dupont2` once that is taken |
| Normalize.OptionalCellsKept | app/api/membres/import/route.ts:322-367 | every optional cell is stored as typed, an empty one as `NULL`, and reads back as its cell |
| Normalize.TextCellsKept | app/api/membres/import/route.ts:322-367 | the mandatory cells are stored verbatim |
| Normalize.FlagCellsAreBits | app/api/membres/import/route.ts:350-363 | a yes/no column stores 0 or 1, and 1 exactly when the cell is `1` |
| Normalize.NormalizeRowFixed | app/api/membres/import/route.ts:322-367 | code, username and hash are the generated ones, the role is `membre`, the status `Membre pré-adhérent`; a count is stored as 0 when its cell is blank and as `parseInt` of the cell otherwise |
| MemberStore.InsertAllHolds | app/api/membres/import/route.ts:370-378 | inserting only adds, and every inserted row is found by each lookup |
| MemberStore.InsertAllCodes | app/api/membres/import/route.ts:370-378 | the codes column after the inserts is the old one plus the new codes |
| MemberStore.MemberTable.Insert | app/api/membres/import/route.ts:370-378 | the insert adds the row's values to each looked-up column and keeps every inserted row findable |
| ImportPipeline.DecideRow | app/api/membres/import/route.ts:298-367 | validation and then code and username generation yield the outcome `Decide` gives for the table's columns |
| ImportPipeline.ApplyOutcome | app/api/membres/import/route.ts:300-392 | recording an outcome updates the result and inserts exactly an accepted row |
| ImportPipeline.ImportRow | app/api/membres/import/route.ts:293-393 | one loop turn takes the state to `Step` of the previous one |
| ImportPipeline.ImportRows | app/api/membres/import/route.ts:293-394 | the loop leaves the result and table that `Run` specifies, line i of data being spreadsheet line i + 2 |
| ImportPipeline.Post | app/api/membres/import/route.ts:246-413 | the handler answers `PostResponse`; with the failures the model takes as inputs (no cookie, no file, too few lines, no connection, an insert that throws), the table changes only on a 200, and then as the run specifies |
| ImportPipeline.RunSnoc | app/api/membres/import/route.ts:293-394 | a run over one more row is one more `Step` |
| ImportProperties.DecideIff | app/api/membres/import/route.ts:298-392 | a row is refused exactly when it is not acceptable, with a non-empty list of errors on its own line, none `general`; it is inserted exactly when it is acceptable, a code can be generated and the insert does not throw |
| ImportProperties.DecideInsertsNew | app/api/membres/import/route.ts:313-378 | an inserted row is stored from its own cells with the default password hash, and none of its email, phone, NIN, NIF, code or username was stored before |
| ImportProperties.RunCounts | app/api/membres/import/route.ts:293-394 | created and skipped lines add up to the data lines, and each created entry is an inserted row |
| ImportProperties.RunSkipped | app/api/membres/import/route.ts:300-392 | the skipped count is the `duplicates` entries plus the `general` insertion errors |
| ImportProperties.RunErrorLines | app/api/membres/import/route.ts:295 | every error names a data line, from 2 to the number of rows + 1 |
| ImportProperties.RunInsertsNew | app/api/membres/import/route.ts:293-394 | each inserted member was new to the table as it stood when its row came |
| ImportProperties.RunKeysUnique | app/api/membres/import/route.ts:192-230 | no two imported members share an email, phone, NIN, NIF, code or username, and none was stored before |
| ImportProperties.RunReferralsKnown | app/api/membres/import/route.ts:232-241 | a kept non-blank referral code belongs to a member stored before or imported earlier |
| ImportProperties.PostStatuses | app/api/membres/import/route.ts:246-413 | 401 exactly without a session cookie, 400 exactly without a file; among the modelled failures, 200 exactly on a parsable file and a connection, and a 200 carries the result and its summary |
| ImportProperties.GeneralCountAppend | app/api/membres/import/route.ts:385-391 | the count of insertion failures adds up over concatenation |
| Template.PlainRoundTrip | app/api/membres/template/route.ts:91-98 | a template with only plain cells parses back to one row built cell for cell |
| Template.TemplateRoundTrip | app/api/membres/template/route.ts:91-98 | a template whose cells hold no comma or line feed parses to one row of the trimmed cells |
| Template.SplitCellRoundTrip | app/api/membres/template/route.ts:91-98 | an example cell `x, z` is parsed as two cells `x` and `z` |
| Template.HeadersArePlain | app/api/membres/template/route.ts:5-45 | the 39 headers hold no comma, line feed or edge white space |
| Template.HeadersCoverRequired | app/api/membres/template/route.ts:5-45 | every mandatory column of the validation is a template header |
| Template.ExampleParsed | app/api/membres/template/route.ts:48-98 | the shipped file parses to one row built from 40 cells, the address split in two |
| Template.TemplateHeadersRecovered | app/api/membres/template/route.ts:5-45 | the import reads the shipped header line back exactly |
| Template.ExampleRowShifted | app/api/membres/template/route.ts:65 | the shipped example stores `123 Rue Example` as address, `Port-au-Prince` as profession, and `0` as referral code instead of `AJD5678` |
| Template.ExampleRowRejected | app/api/membres/template/route.ts:65 | the shipped example is refused whenever no member has the code `0` |
| Template.ExampleReferralIsOwnCode | app/api/membres/template/route.ts:49-87 | the example's referral code is the base code the import derives from its own name and phone |
| Template.CorrectedExampleParsed | app/api/membres/template/route.ts:48-98 | without the comma, the example parses cell for cell under the 39 headers |
| Template.CorrectedExampleFields | app/api/membres/template/route.ts:65 | without the comma, the address is whole and the referral code is `AJD5678` |
| Cotisation.TotalPaidAppend | components/cotisation-status.tsx:49 | the total of two runs of installments is the sum of their totals |
| Cotisation.SummaryBalance | components/cotisation-status.tsx:49-51 | the balance is never negative; paid up exactly when it is 0 and exactly when the total reaches 1500; otherwise total + balance = 1500 |
| Cotisation.SummaryListing | components/cotisation-status.tsx:53-63 | the listed installments are the backend's, one for one, with a missing date as `''` |
| Cotisation.PaymentLowersBalance | components/cotisation-status.tsx:49-51 | one more non-negative installment lowers the balance by its amount, down to 0, and never undoes completion |
| Cotisation.FirstHintIff | components/cotisation-status.tsx:137-142 | the first-installment hint shows exactly when nothing is paid, and says 150 |
| Cotisation.NextHintIff | components/cotisation-status.tsx:171-176 | the next hint shows exactly while the total is below 1500; it asks for min(balance, 150) > 0, marked final exactly when below 150 |
| Cotisation.PayingTheHint | components/cotisation-status.tsx:171-176 | paying a final hint completes the dues; paying any other lowers the balance by 150 |
| Cotisation.NoPaymentYet | components/cotisation-status.tsx:31-32 | with no installment: balance 1500, hint 150, next hint 150 not final |
| Parrainage.WhereIff | app/dashboard/parrainage/page.tsx:76 | the filter keeps exactly the elements that pass |
| Parrainage.Take | app/dashboard/parrainage/page.tsx:125 | `slice(0, n)` is the first min(n, length) elements |
| Parrainage.StatsSpec | app/dashboard/parrainage/page.tsx:69-84 | sponsored members are those with a code, the sponsor set is the codes they name, and there are no more sponsors than filleuls |
| Parrainage.SponsorCodesIff | app/dashboard/parrainage/page.tsx:70-74 | a code is in the set exactly when some member names it |
| Parrainage.SponsorCodesBound | app/dashboard/parrainage/page.tsx:70-76 | the number of distinct codes is at most the number of sponsored members |
| Parrainage.FilleulsSpec | app/dashboard/parrainage/page.tsx:102-104 | a sponsor's list holds exactly the members naming its code, in order |
| Parrainage.FindByCode | app/dashboard/parrainage/page.tsx:112 | `find` returns a member with the code, and nothing exactly when none has it |
| Parrainage.SponsorOrderSpec | app/dashboard/parrainage/page.tsx:109-121 | the map's keys are distinct, every counted code is a key, and every key is a counted code |
| Parrainage.TallySponsors | app/dashboard/parrainage/page.tsx:107-121 | the `forEach` leaves a map whose keys are inserted in first-use order, each mapping to its member and its exact number of filleuls |
| Parrainage.SortByCountSpec | app/dashboard/parrainage/page.tsx:123-124 | the ranking is sorted by decreasing count, a permutation of the entries, and stable within each count |
| Parrainage.InsertByCountPerm | app/dashboard/parrainage/page.tsx:124 | inserting adds exactly the one entry |
| Parrainage.InsertByCountSorted | app/dashboard/parrainage/page.tsx:124 | inserting keeps the order by count |
| Parrainage.InsertByCountStable | app/dashboard/parrainage/page.tsx:124 | inserting puts the entry after those of equal count |
| Parrainage.GetTopParrains | app/dashboard/parrainage/page.tsx:106-126 | tally, sort, and keep ten give `TopSponsors` |
| Parrainage.SponsorEntriesSpec | app/dashboard/parrainage/page.tsx:109-121 | every tallied entry is the first member with its code and counts its filleuls exactly (at least one) |
| Parrainage.TopSponsorsSpec | app/dashboard/parrainage/page.tsx:106-126 | at most ten entries, sorted, with exact counts, each one tallied; a left-out entry ranks no higher than all ten |
| Parrainage.FilterMembresSpec | app/dashboard/parrainage/page.tsx:86-100 | an empty term keeps the list; otherwise exactly the members whose name, first name, username or code contains the term, ignoring case |
| Parrainage.TreeViewSpec | app/dashboard/parrainage/page.tsx:271-273 | at most twenty members, each a filtered one with a filleul; fewer than twenty only when every qualifying member is shown; those shown are the qualifying members of a prefix of the filtered list, in its order |
| Parrainage.TakeWherePrefix | app/dashboard/parrainage/page.tsx:271-273 | the first n elements a filter keeps are what it keeps of some prefix of the list |
| Parrainage.SponsorCountSpec | app/dashboard/parrainage/page.tsx:174 | the corrected count is the number of distinct membership codes some member names |
| Parrainage.UnknownCodeCounted | app/dashboard/parrainage/page.tsx:70-75 | a lone member naming an unknown code gives one "sponsor" as written, none when corrected |
| Album.ImageUrlSpec | lib/api/albumService.ts:148-158 | an empty path gives `''`; a full URL is kept; any other path is prefixed with the base URL; a result ends with the path |
| Album.ImageUrlIdempotent | lib/api/albumService.ts:148-158 | with a full base URL every non-empty result is a full URL, so resolving twice changes nothing |
| Album.ApiUrlAbsolute | lib/api/client.ts:3 | the default base URL is a full URL, so resolution with it is idempotent |
| Middleware.GateSpec | middleware.ts:5-29 | public paths pass; any other path passes exactly when its token verifies, and is otherwise sent to `/login` |
| Middleware.CookieDeletedIff | middleware.ts:14-26 | `admin-token` is deleted exactly when a non-empty token fails to verify on a protected path |
| Middleware.GateReadsOnlyToken | middleware.ts:14-22 | the decision depends on the verifier only through the presented token |
| Middleware.MatcherSkipsAssets | middleware.ts:31-33 | paths under `_next/static`, `_next/image` and `favicon.ico` meet no gate |
| Middleware.PagesAreMatched | middleware.ts:31-33 | every other page path goes through the gate |
| Middleware.AuthPrefixIsTextual | middleware.ts:9 | the public prefix is textual: `/api/authors` is public too |

## Left out

- The numeric value of `parseInt`. A non-blank count is kept as the text it is read from (`ParseIntOf`). JavaScript number parsing is not modelled.
- Unicode case mapping. `toLowerCase` and `toUpperCase` act on ASCII letters only, so a name such as `Élise` gives a different initial and username than in the source.
- The database's collation. Lookups are exact set membership; MySQL's case- and accent-insensitive comparison and its unique indexes are not modelled.
- Concurrency. Two imports running at once could both see a code or username as free; the model runs one import at a time.
- Floating point. The average number of filleuls per sponsor and the dues progress percentage are not modelled.
- ImportPipeline.Post: the 500 answers other than a failed connection are not modelled. A failing `validateRow` lookup (app/api/membres/import/route.ts:297, outside the per-row `try`), a failing `bcrypt.hash`, `request.formData()` or `file.text()` all reach the outer `catch` and answer 500, and rows inserted before a failing lookup stay inserted, since there is no transaction. The model has no input for these failures, so "the table changes only on a 200" holds only without them.
- ImportProperties.PostStatuses: for the same reason, "200 exactly on a parsable file and a connection" holds only when no lookup, hash or body read fails.
- bcrypt, the MySQL connection and the SQL text. These are a `passwordHash` parameter, a `connectError` option, and the `MemberTable` class.
- Authentication on the import. It is the presence of a non-empty `token` cookie, as the handler checks; the token is not verified there.
- `verifyToken` (lib/jwt.ts). It is a predicate parameter, true exactly when a payload is returned.
- The dues fetch and its filter on validated installments. These are done by the backend; the model takes the returned installments as input.
- `montant` as a JavaScript number. It is an integer in the model.
- React rendering, loading states and error banners of the card and the page. These are not modelled.
- The matcher's regular expression. `.` in `favicon.ico` is read as "any character", and the lookahead as a prefix test on the path after `/`.
- The rest of lib/api/client.ts. Only `API_URL` and `getBaseUrl` are modelled, as `Album.ApiUrl`.
- Parrainage.TallySponsors: the JavaScript `Map` is a key sequence plus a `map`, and the in-place `existing.count++` is a map update.
- Parrainage.SortByCount: the engine's sort is modelled as a stable insertion sort, which is what ECMAScript 2019 requires of `Array.prototype.sort`.

## Findings

| source | as written | input that shows it | evidently intended | confidence | as-written member | corrected member |
|---|---|---|---|---|---|---|
| app/api/membres/template/route.ts:65 | the example address `123 Rue Example, Port-au-Prince` contains a comma, and the import splits every line on commas with no quoting | the template file as shipped: its example line parses to 40 cells under 39 headers, so `profession` gets `Port-au-Prince` and `code_parrain` gets `0` | an example line that the import reads back cell for cell, e.g. the address without a comma | not executed | Template.ExampleRowShifted | Template.CorrectedExampleFields |
| app/dashboard/parrainage/page.tsx:70-75 | `totalParrains` is the number of distinct referral codes in use, including codes that belong to no member; the card says "Membres avec au moins 1 filleul" | one member `AMP1234` whose `code_parrain` is `AXX0000`, which no member holds: `totalParrains` is 1 while no member has a filleul | the number of members that at least one other member names as sponsor | not executed | Parrainage.UnknownCodeCounted | Parrainage.SponsorCountSpec |
