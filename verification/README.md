# Invoice Analyzer — a verified model of its core

The Invoice Analyzer has two parts:

- **A web page** (frontend/src/app/page.js). The user picks or drops a PDF and sends it to the extraction service. The page shows the extracted fields and offers them for download as a one-record CSV file.
- **An extraction service** (backend/app.py). It turns the OCR text of the first page into seven fields. The parsing is done by `intelligent_parse` and its helper `clean_address_block`.

The model has six modules:

- `Wrappers`: the `Option` type.
- `Strings`: the string operations of the system, with their laws. These are split and join, `strip`, `lower`, substring search, `s[:n]`, filtering, and one-character replacement. Splitting is Python's `str.split`. The page never splits a string; the same `Split` only reads the CSV text back in the lemmas about it.
- `Json`: the flat JSON record the page receives. It is a sequence of key/value entries in `Object.keys` order, each value a string or `null`, together with JavaScript truthiness.
- `CsvExport`: `downloadCSV` as pure functions, with lemmas.
  - Only truthy entries become columns, in key order, and headers and cells line up.
  - The data row never holds a line break. The text is exactly two lines when no key holds a line break.
  - Splitting the header row at commas gives back the headers when at least one entry is kept and no key holds a comma. The same holds for the data row and its cells when no value holds a comma.
  - Keys are written unquoted (page.js:84), so a key with a comma adds a column for any reader.
  - Values are always written between quotes (page.js:90), which is how RFC 4180 (section 2, rule 6) protects commas. An amount such as `1,234.00` (backend/app.py:71) or an address therefore still reads back as one cell. Only the data-row lemma needs comma-free values, because its plain split at commas ignores quotes.
  - A value with an embedded `"` is not read back correctly, because page.js does not double it (RFC 4180, section 2, rule 7).
- `InvoicePage`: the page component.
  - `PageState` and one step function per handler state what each handler does to the whole state. That state is the selected file, the extracted data, the status, the status text, the file picker's selection and the alerts shown.
  - The class `Page` has handler methods that update its fields one at a time. Each method is proved to follow its step function and to keep the invariant `Consistent`.
  - `processFile` is asynchronous, so it is modelled as `Submit`, the part before `fetch` resolves, and `Settle(response)`, its continuation. Other handlers may run between the two.
- `InvoiceParser`: `intelligent_parse`.
  - `clean_address_block` is a pure function. It is characterised by lemmas: when the block is empty, and that its lines are lines of the paragraph, in order, at most five, and each an address line.
  - The bill-to search loop is a method proved against `CustomerBlock`.
  - The regular-expression searches are not interpreted. Each is a function-valued field of `Patterns`, so the model states which search feeds which field and in which order the searches are tried.

page.js departs from RFC 4180 and from what a reader of the page would expect in five ways, and the model follows the code:

- A rejected selection (not a PDF) clears the selected file.
- Embedded quote characters are not doubled in the CSV.
- The download name is always `invoice_data.csv`.
- There is no timed status narration.
- Result labels are the raw keys.

## Model

| member | source | states |
|---|---|---|
| Strings.Split | backend/app.py:33 | `s.split(c)` gives at least one part and no part holds the separator |
| Strings.SplitJoin | backend/app.py:33-37 | splitting a join at the separator gives back the parts when no part holds it |
| Strings.JoinSplit | backend/app.py:33-37 | joining the parts of a split with the separator gives back the string |
| Strings.FirstLineIsPrefix | backend/app.py:41 | `s.split('\n')[0]` is the prefix of `s` before its first line break: no break inside, and a break right after it unless it is all of `s` |
| Strings.Join | backend/app.py:37 | `sep.join(parts)` is empty for no parts, and otherwise starts with the first part |
| Strings.ReplaceChar | backend/app.py:57 | `s.replace(a, b)` for one character keeps the length, replaces every `a` by `b`, keeps every other character, and leaves no `a` when `a != b` |
| Strings.SkipSpaces | backend/app.py:35 | the scan forward from `i` passes only whitespace and stops at the end or at a non-space |
| Strings.SkipSpacesBack | backend/app.py:35 | the scan backward from `j` passes only whitespace and stops at `lo` or after a non-space |
| Strings.Strip | backend/app.py:35 | `strip` gives the slice of `s` left after dropping the whitespace run at each end; the slice neither starts nor ends with whitespace, and is empty exactly when every character is whitespace |
| Strings.Lower | backend/app.py:35 | `lower` keeps the length, maps each ASCII capital to its small letter, keeps every other character, and leaves no ASCII capital |
| Strings.Contains | backend/app.py:35 | `kw in s` holds exactly when `kw` occurs in `s` at some position |
| Strings.Take | backend/app.py:37 | `s[:n]` is the prefix of length `min(n, len(s))` |
| Strings.Filter | backend/app.py:35 | the comprehension keeps only accepted elements, keeps every accepted element, and keeps them in their order |
| Strings.FilterCounts | backend/app.py:35 | the comprehension keeps each accepted value as often as it occurs and drops every other value |
| Strings.JoinFilterEmpty | backend/app.py:35-37 | the joined first `n` accepted strings are empty exactly when nothing is accepted, if only non-empty strings are accepted |
| Strings.SubsequencePrefix | backend/app.py:37 | a prefix of an order-preserving selection is still one |
| Strings.SubsequenceMembers | backend/app.py:35 | an order-preserving selection holds only elements of its source |
| Strings.SplitPrefix | frontend/src/app/page.js:84 | a part without the separator, followed by the separator, splits off as the first part |
| Strings.JoinAvoids | frontend/src/app/page.js:84 | a join holds no character that neither the parts nor the separator hold |
| InvoiceParser.ContainsAny | backend/app.py:35 | `any(kw in s for kw in keywords)` holds exactly when some keyword occurs in `s` |
| InvoiceParser.IsAddressLine | backend/app.py:35 | a line is kept exactly when it has a non-whitespace character and its lower-cased form contains none of the six keywords |
| InvoiceParser.Tidy | backend/app.py:57 | a quoted group after `.replace('\n', ' ').strip()` is the slice of the group between its leading and trailing whitespace runs, each line break in it read as a space; it holds no line break and neither starts nor ends with whitespace |
| InvoiceParser.CleanAddressBlock | backend/app.py:30-32 | the cleaner gives None exactly for the empty paragraph |
| InvoiceParser.CleanAddressBlockEmpty | backend/app.py:30-37 | for a non-empty paragraph the block is `""` exactly when no line is an address line (non-blank and free of the six keywords) |
| InvoiceParser.CleanAddressBlockLines | backend/app.py:33-37 | the lines of a non-empty block are exactly the first five address lines of the paragraph: lines of the paragraph in their original order, at most five, each non-blank and free of unwanted keywords |
| InvoiceParser.FirstBillTo | backend/app.py:47-50 | the search finds the first paragraph the bill-to pattern matches, or reports that none does |
| InvoiceParser.CustomerBlock | backend/app.py:46-50 | the customer block is the first bill-to paragraph, or the second paragraph when no paragraph matches |
| InvoiceParser.FindCustomerBlock | backend/app.py:46-50 | the loop with its `break` yields exactly `CustomerBlock` |
| InvoiceParser.ParseParties | backend/app.py:39-52 | supplier fields come from the first paragraph and customer fields from the customer block; each is the stripped first line plus the cleaned block, and stays None when its paragraph is missing |
| InvoiceParser.IntelligentParse | backend/app.py:17-80 | all seven fields start as None; the quoted receipt number wins over the plain invoice number, and the quoted document date over the plain date pattern, each quoted group tidied; the payment amount wins over the largest amount found, and with no amount the total stays None |
| Json.Truthy | frontend/src/app/page.js:83 | JavaScript truthiness: `null` and `""` are falsy, every other string is truthy |
| CsvExport.Kept | frontend/src/app/page.js:83 | the header filter keeps exactly the truthy entries, and nothing else |
| CsvExport.KeptInKeyOrder | frontend/src/app/page.js:83 | the kept entries are in the record's key order |
| CsvExport.Headers | frontend/src/app/page.js:83 | the headers are the keys of the kept entries in order, and every key with a truthy value is among them |
| CsvExport.HeadersDistinct | frontend/src/app/page.js:83 | no header repeats when the record's keys are distinct |
| CsvExport.KeptDistinct | frontend/src/app/page.js:83 | filtering entries keeps keys distinct |
| CsvExport.HeaderRow | frontend/src/app/page.js:84 | the header row is one line when no key holds a line break |
| CsvExport.Cell | frontend/src/app/page.js:86-91 | a cell is the value between two quotes, character by character, with each line break replaced by a space; it has the value's length plus two and no line break |
| CsvExport.LineFreeCell | frontend/src/app/page.js:90 | a value without line breaks is copied verbatim between two quotes, so embedded quotes are not doubled |
| CsvExport.Cells | frontend/src/app/page.js:86-91 | there is one cell per header, the j-th cell quotes the value of the j-th kept entry, and no cell holds a line break |
| CsvExport.DataRow | frontend/src/app/page.js:92 | the data row is always one line |
| CsvExport.CsvText | frontend/src/app/page.js:82-92 | the CSV text ends with a line break |
| CsvExport.Download | frontend/src/app/page.js:80-101 | no link without data; otherwise the fixed file name and a CSV data URI whose payload is the CSV text |
| CsvExport.CsvLines | frontend/src/app/page.js:84-92 | when no key holds a line break, the text splits into the header row, the data row and nothing after the final break |
| CsvExport.HeaderRowRoundTrip | frontend/src/app/page.js:83-84 | when no key holds a comma, splitting the header row at commas gives back the headers |
| CsvExport.DataRowRoundTrip | frontend/src/app/page.js:86-92 | when no value holds a comma, splitting the data row at commas gives back the cells |
| CsvExport.ExampleKept | frontend/src/app/page.js:83 | an entry with an empty value gets no column |
| CsvExport.ExampleHeaderRow | frontend/src/app/page.js:83-84 | the worked example's header row is `ID,Notes` |
| CsvExport.ExampleIdCell | frontend/src/app/page.js:90 | the worked example's identifier cell is `"A1"` |
| CsvExport.ExampleNotesCell | frontend/src/app/page.js:89-90 | the worked example's notes cell is `"a b"`: its line break becomes a space |
| CsvExport.ExampleCells | frontend/src/app/page.js:86-91 | the worked example's cells are quoted, and its line break becomes a space |
| CsvExport.ExampleDataRow | frontend/src/app/page.js:92 | the worked example's data row is `"A1","a b"` |
| CsvExport.QuotesNotDoubled | frontend/src/app/page.js:90 | a value with a quote character gives a cell that is not RFC 4180 quoting |
| InvoicePage.FileChangeStep | frontend/src/app/page.js:24-35 | a PDF selects the file, drops old data and returns to idle; anything else clears the selection and leaves data and status alone, and only a given non-PDF file raises the alert |
| InvoicePage.DropStep | frontend/src/app/page.js:38-43 | a drop hands only its first file to the selection handler, and a drop with no files changes nothing |
| InvoicePage.InputChangeStep | frontend/src/app/page.js:126-132 | the picker holds the new selection; a non-empty selection is the selection handler applied to its first file, and an empty one only clears the file, without an alert |
| InvoicePage.SubmitStep | frontend/src/app/page.js:45-53 | without a file only the "select a file" alert is added; with one the page processes, shows the sending message and has no data |
| InvoicePage.ErrorText | frontend/src/app/page.js:65-77 | the error shown is the server's truthy `error` member, else the server default; a thrown error shows its message, else the unknown-error default; it is never empty |
| InvoicePage.SettleStep | frontend/src/app/page.js:58-77 | a parsed success body becomes the data with status success; any failure gives status error with `ErrorText`; the selection and the picker are untouched |
| InvoicePage.ResetStep | frontend/src/app/page.js:103-108 | reset returns to idle with no file, no data and an empty picker, and keeps the status text |
| InvoicePage.SelectionKeepsConsistent | frontend/src/app/page.js:24-43 | the selection handlers keep the invariant: success has data, idle and processing have none, an error has a description, processing shows the sending message |
| InvoicePage.RequestKeepsConsistent | frontend/src/app/page.js:45-108 | submit, a late or timely response, and reset keep the same invariant |
| InvoicePage.InitialConsistent | frontend/src/app/page.js:18-21 | the initial state is consistent, and data is present exactly on success |
| InvoicePage.SequentialHandlersKeepDataOnlyOnSuccess | frontend/src/app/page.js:24-108 | when each request completes before the next handler runs, data is present exactly in the success state |
| InvoicePage.OverlappingRequests | frontend/src/app/page.js:24-77 | selecting a second PDF while a request is in flight re-enables the button; the first response, arriving late, is then shown next to the second file, and a later failure leaves that stale data in the error state |
| InvoicePage.SubmitWithoutFileKeepsState | frontend/src/app/page.js:46-49 | the early return changes none of the four state cells |
| InvoicePage.ProcessFileStep | frontend/src/app/page.js:45-77 | without a file only the alert is added; with one, a completed request never leaves processing or idle; it ends in success exactly for a parsed success body, which becomes the data, and otherwise in error with no data and a description |
| InvoicePage.IsPdf | frontend/src/app/page.js:25 | a file is accepted exactly when its MIME type is `application/pdf` |
| InvoicePage.SubmitEnabled | frontend/src/app/page.js:144 | the button is enabled exactly when a file is selected and no request is processing |
| InvoicePage.EnabledSubmitSendsRequest | frontend/src/app/page.js:144 | an enabled button never reaches the early return |
| InvoicePage.ResetIdempotent | frontend/src/app/page.js:103-108 | resetting twice is resetting once |
| InvoicePage.Page.constructor | frontend/src/app/page.js:18-22 | the four cells start empty and idle, and the page is consistent |
| InvoicePage.Page.HandleFileChange | frontend/src/app/page.js:24-35 | the handler's field updates are `FileChangeStep`, and it keeps the invariant |
| InvoicePage.Page.HandleDrop | frontend/src/app/page.js:38-43 | the handler's field updates are `DropStep`, and it keeps the invariant |
| InvoicePage.Page.OnInputChange | frontend/src/app/page.js:131 | the handler's field updates are `InputChangeStep`, and it keeps the invariant |
| InvoicePage.Page.Submit | frontend/src/app/page.js:45-56 | the request carries the selected file, or none after the early return; the field updates are `SubmitStep` |
| InvoicePage.Page.Settle | frontend/src/app/page.js:58-77 | the continuation's field updates are `SettleStep`, from whatever state the page is in when the response arrives |
| InvoicePage.Page.ProcessFile | frontend/src/app/page.js:45-77 | `processFile` with no handler in between sends the selected file; its field updates are `ProcessFileStep`, whose contract states the outcome |
| InvoicePage.Page.DownloadCsv | frontend/src/app/page.js:80-97 | the link offered is `Download` of the current data |
| InvoicePage.Page.Reset | frontend/src/app/page.js:103-108 | the handler's field updates are `ResetStep`, and it keeps the invariant |

## Left out

- The regular expressions of `intelligent_parse` (backend/app.py:45, 55, 59, 63, 67, 71, 75) are not interpreted. Each search is an uninterpreted function in `Patterns`, and the case-insensitive matching happens inside it.
- The largest amount (backend/app.py:77-78) is computed by parsing floats and formatting with two decimals. Floating point is not modelled; `Patterns.formatMax` stands for that step.
- The HTTP endpoint `extract_invoice_data` (backend/app.py:83-116) is outside the modelled core. That covers PDF rendering, OCR, splitting the text at blank lines, and its error answers. So is the JSON encoding of the parsed record, including the key order Flask writes.
- Strings.Lower: lower-cases ASCII letters only, whereas Python's `str.lower` also lower-cases other scripts. For the six keywords of backend/app.py:34 this changes no answer. The only non-ASCII characters that lower-case to ASCII letters are U+212A, which gives `k`, and U+0130, which gives `i` followed by U+0307. No keyword contains `k`, and an `i` followed by U+0307 cannot complete `e-mail`.
- The `fetch` call, `FormData`, `console.error`, `alert` display, `document` and the anchor click are left out. The network outcome is a `Response` value, and alerts are a log of messages.
- A 2xx body that is not a flat JSON object, and an `error` member that is neither a string nor `null`, are not modelled.
- The element behind `fileInputRef` is assumed mounted when `reset` runs.
- CsvExport.HeaderRowRoundTrip: holds only when no key contains a comma. page.js writes keys unquoted, so a key with a comma splits into extra columns.
- CsvExport.DataRowRoundTrip: requires comma-free values, because it reads the row back with a plain split at commas. A quote-aware reading, which page.js's quoting allows for values without `"`, is not modelled.
- CsvExport.Download: the href holds the CSV text before `encodeURI` percent-encodes it.
- Rendering is not modelled: the results table (page.js:166-177), its address line breaks, and the button labels.
- Interleavings are modelled only through `Submit` and `Settle`. Any handler may run between the two, which `RequestKeepsConsistent` and `OverlappingRequests` cover. Cancelling a request is not modelled, because the page has no way to do it.
