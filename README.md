# Bank-statement normaliser — a Dafny model

This project models the transaction-normalisation core of a small personal-finance app.
A user uploads a bank-statement spreadsheet. The browser handler first asks whether
the sheet, read as records, already has `type`, `amount` and `description` columns. If it
has them, the records are stored unchanged. If not, the handler re-reads the sheet as raw
rows and normalises it:

- it finds the first row that holds the marker headers `Description`, `Debit Amount` and
  `Credit Amount`;
- it zips every later row against that header row into a labeled row;
- it keeps the rows whose Description contains a `/`;
- it splits that description into a counterparty (`mid`) and a category;
- it classifies each kept row as debit, credit or unknown, relative to the fixed account
  holder `DEEPAK`.

A standalone script runs the same normaliser. Its output is nine-cell rows under a fixed
header row. It writes capitalised type labels and keeps the amount as it was read. The stored
transactions are serialised to comma-separated text for an insights service, and that
service's parsed reply is defaulted to an object with seven keys.

Modules:

- `Wrappers` (wrappers.dfy): Option and Result.
- `Cells` (cells.dfy): cell values (`Str`, `Num`, `Empty`). Also JavaScript truthiness and
  `||`, decimal spelling of numbers, and plain objects as ordered field lists.
- `Text` (text.dfy): `split`/`join` on one character, `trim` (the ECMAScript white-space
  set) and ASCII lower-casing, with their round-trip lemmas.
- `Normalizer` (normalize.dfy): the pipeline that App.jsx:38-100 and transform.cjs:14-97
  share. Transform.cjs lines 14-16, 24-34, 54-65 and 67-84 match App.jsx lines 39-41,
  47-56, 61-71 and 72-88, so they are modelled once, by the members cited against App.jsx.
- `App` (app.dfy): the detector, the browser's transaction record and what an upload stores.
- `Script` (script.dfy): the script's nine-cell rows, the final sheet and the exit path.
- `Utils` (utils.js's `convertToCSV` and the defaulting in `getInsights`): JSON string
  escaping with its decoder, the CSV text with a field reader, and the insights object.

Each operation the JavaScript program writes imperatively is an imperative method proved equal to its
specification function. That covers the `forEach` that fills a labeled row, the if/else over
the `let` variables, and the `for...of` loop that pushes CSV lines. The pipeline and the lemmas
use the function.

Four behaviours of the code are easy to miss; the model follows the code:

- An empty sheet makes the detector false (`jsonData.length > 0 && ...`). So an empty sheet
  goes down the normaliser path, not a pass-through.
- A Description cell holding a non-zero number makes `(x || '').includes('/')` throw. It is
  not coerced to a string. The model returns `Err(DescriptionNotText)`: `App.Upload.Threw`
  and `Script.Outcome.Crashed`.
- `obj[key] = row[i]` past the end of a shorter row stores `undefined`, so the key is present
  and holds `Empty`. Reading the key gives the same result as if it were absent.
- The insights defaulting keeps a parsed value only when it is truthy. A parsed `0`, `""`,
  `false` or `null` is also replaced by the empty container. A parsed top-level `null`
  throws on property access and ends in the all-empty object.

## Model

| member | source | states |
|---|---|---|
| `App.HasRequiredColumns` | final_frontend/src/App.jsx:33-34 | true iff there is a first record and each of type, amount, description is one of its keys lower-cased; an empty list gives false |
| `App.PassThrough` | final_frontend/src/App.jsx:36-104 | when the detector holds, the stored transaction list is the input records unchanged |
| `App.HeaderAlertExactly` | final_frontend/src/App.jsx:42-46 | on the normaliser path the upload ends in the alert, storing nothing, iff no raw row is a header row |
| `App.TxnRecordKeys` | final_frontend/src/App.jsx:89-99 | a browser transaction record has exactly the nine keys, in the literal's order |
| `App.TxnRecordType` | final_frontend/src/App.jsx:96 | the type field is the kind's label, one of debit, credit, unknown, never empty |
| `App.UnknownAmountZero` | final_frontend/src/App.jsx:95 | an unknown row's amount is `Number('')`, that is 0 |
| `App.StoredFromNormalizer` | final_frontend/src/App.jsx:61-104 | what the normaliser path stores is one record per transaction, in order, fewer than the raw rows, each with the nine keys and a description holding '/' |
| `App.NormalizedIsCanonical` | final_frontend/src/App.jsx:33-34 | when at least one transaction is produced, the records the normaliser produces satisfy the detector, so re-uploading them passes through; an empty result does not (the detector is false on an empty list) |
| `App.InsightsCsvHeader` | final_frontend/src/App.jsx:104-106 | when at least one transaction is produced, the CSV text sent for normalised transactions has the nine keys as header line and one line per transaction; an empty list is sent as empty text |
| `Normalizer.FindHeaderRow` | final_frontend/src/App.jsx:39-41 | the index found is a header row with no header row before it; none is found iff no row holds all three markers |
| `Normalizer.FindFrom` | final_frontend/src/App.jsx:39-41 | the first header row at or after i, or none after i |
| `Normalizer.NormalizeHeaderNotFound` | final_frontend/src/App.jsx:42-46 | normalisation fails with HeaderNotFound iff no row holds the three markers (no partial result) |
| `Normalizer.ZipKeys` | final_frontend/src/App.jsx:50-56 | a labeled row's keys are exactly the keys of the non-hole header cells |
| `Normalizer.ZipValue` | final_frontend/src/App.jsx:52-54 | the key headers[i] maps to row[i] (Empty past the row's end), the last of repeated headers winning |
| `Normalizer.BuildLabeledRow` | final_frontend/src/App.jsx:51-54 | the in-place `forEach` leaves exactly the zipped labeled row |
| `Normalizer.LabelRowsAppend` | final_frontend/src/App.jsx:48-56 | labeling is one labeled row per raw row, in order: labeling a concatenation concatenates |
| `Normalizer.SelectFails` | final_frontend/src/App.jsx:62 | the filter fails iff some row's Description is a non-zero number, and then with DescriptionNotText |
| `Normalizer.SelectKeeps` | final_frontend/src/App.jsx:61-64 | no more kept entries than rows, each taken from an input row whose Description is the kept text, which holds '/' |
| `Normalizer.SelectOne` | final_frontend/src/App.jsx:62 | a row with a textual Description holding '/' is kept with that text; any other non-throwing row is dropped |
| `Normalizer.SelectAppend` | final_frontend/src/App.jsx:61-63 | the filter preserves order: filtering a concatenation concatenates the results |
| `Normalizer.SegmentsWithoutSlash` | final_frontend/src/App.jsx:65-67 | without a '/', mid and category are both "" |
| `Normalizer.SegmentsOfTwo` | final_frontend/src/App.jsx:65-67 | "a/b" gives mid = trimmed b and category "" |
| `Normalizer.SegmentsMid` | final_frontend/src/App.jsx:66 | the mid is the trimmed text between the first and second '/', whatever follows |
| `Normalizer.SegmentsCategory` | final_frontend/src/App.jsx:67 | with at least two '/', the category is the trimmed text after the last '/' |
| `Normalizer.SegmentsOfThree` | final_frontend/src/App.jsx:65-67 | "a/b/c" with slash-free parts gives mid = trimmed b, category = trimmed c |
| `Normalizer.ClassifyRow` | final_frontend/src/App.jsx:72-88 | the if/else over the let variables computes the classification, and the type is set on every path |
| `Normalizer.ClassifyCases` | final_frontend/src/App.jsx:76-88 | debit, credit and unknown are exclusive and decided in that order; the holder is the sender on debits and the receiver on credits, the other party is mid; unknown has no amount and no parties |
| `Normalizer.TxnFields` | final_frontend/src/App.jsx:68-71 | date and balance fall back to "" when falsy; the rest comes from the classification and the segments |
| `Normalizer.NormalizeOutput` | final_frontend/src/App.jsx:47-64 | a successful run yields no more transactions than there are rows after the header; each is the per-row mapping applied to the labeled form of a row after the header, with that row's original Description text, which holds '/', and the k-th identifier |
| `Normalizer.NormalizeDeterministic` | final_frontend/src/App.jsx:58-59 | two runs on the same rows agree in everything but the transaction identifiers |
| `Normalizer.DebitRow` | final_frontend/src/App.jsx:76-80 | a debit row described a/b/c (e.g. PUR/AMAZON/SHOPPING) is a debit from the holder to b under category c, for the debit amount |
| `Normalizer.CreditRow` | final_frontend/src/App.jsx:81-85 | a credit row described a/b/c (e.g. SAL/INFOSYS/SALARY) is a credit from b to the holder under category c |
| `Script.ExitsExactly` | final_frontend/src/transform.cjs:14-21 | the script exits without output iff no row holds the three markers |
| `Script.RowAligned` | final_frontend/src/transform.cjs:86-96 | every output row has nine cells, each under the header that names its field |
| `Script.SheetShape` | final_frontend/src/transform.cjs:100 | the written sheet is the header row followed by one row per transaction, in order: one row more than the transactions |
| `Script.UnknownRowBlank` | final_frontend/src/transform.cjs:67-84 | on an Unknown row, amount, sender and receiver stay "" |
| `Script.AgreesWithBrowser` | final_frontend/src/transform.cjs:86-96 | the script's row and the browser's record agree field by field, except the capitalised label and the uncoerced amount |
| `Utils.ConvertToCsv` | final_frontend/src/utils.js:8-16 | the push loop produces the header line followed by one line per record, joined by newlines |
| `Utils.CsvEmpty` | final_frontend/src/utils.js:9 | the text is empty iff the input is missing or has no record |
| `Utils.CsvHeader` | final_frontend/src/utils.js:10-11 | the header line is the first record's keys joined by commas, and every data line uses those keys |
| `Utils.LaterKeysIgnored` | final_frontend/src/utils.js:10-13 | a key that only a later record carries changes nothing in the text |
| `Utils.CsvLineCount` | final_frontend/src/utils.js:11-15 | when no first-record key holds a newline, the text splits back into exactly n + 1 lines, in input order |
| `Utils.DataLineSingle` | final_frontend/src/utils.js:13 | no data line contains a line break, whatever the values hold |
| `Utils.DataLineFields` | final_frontend/src/utils.js:13 | a data line reads back as exactly one field per header key |
| `Utils.FieldDecodes` | final_frontend/src/utils.js:13 | a textual value is written as a JSON literal decoding back to it; a missing or falsy value is written as "" in quotes |
| `Utils.EscapeRoundTrip` | final_frontend/src/utils.js:13 | decoding undoes JSON string escaping |
| `Utils.InsightsShape` | final_frontend/src/utils.js:71-82 | the result has the seven keys in order; each truthy parsed value is kept, otherwise [] or {} for summary, all empty on parse failure |
| `Utils.InsightsComplete` | final_frontend/src/utils.js:71-79 | each of the seven keys reads back from the result with a non-falsy value |
| `Utils.InsightsIdempotent` | final_frontend/src/utils.js:71-79 | defaulting an already-defaulted object changes nothing |
| `Text.SplitJoin` | final_frontend/src/utils.js:15 | split undoes join when no part holds the separator |
| `Text.JoinSplit` | final_frontend/src/App.jsx:65 | join undoes split |
| `Text.SplitCount` | final_frontend/src/App.jsx:65 | a split has one more part than the separators in the text |
| `Text.TrimShape` | final_frontend/src/App.jsx:66 | trim cuts only white space from the ends and leaves none at either end |
| `Text.TrimExact` | final_frontend/src/App.jsx:66-67 | trim recovers the middle of white space, m, white space when m has no white space at its ends |

## Left out

- Reading and writing workbooks (`XLSX.read`, `sheet_to_json`, `readFile`, `aoa_to_sheet`, `writeFile`) are foreign library calls. Their results come in as given: the records view and the raw-rows view of the first sheet. The two views are not tied to each other.
- FileReader, React state setters, `alert`, the async flow and the last-writer-wins race between uploads are I/O and concurrency and are not modelled. An upload is modelled by what it stores (`App.Upload`).
- Rendering, the chart data objects, and the summary arithmetic (`Number` sums, averages, maximum, `toFixed`) are UI and floating point.
- Transaction identifiers from `Math.random().toString(36)` are random. They come in as `ids: nat -> string`, and their format is not constrained.
- The insights service call, the prompt, `JSON.parse` and the markdown-fence stripping are network, foreign parsing and LLM-specific text handling. They are not modelled. Only the defaulting of an already-parsed reply is.
- Numbers are integers. Fractional amounts, and JavaScript's number-to-string spelling of fractions and of magnitudes of 10^21 or more (`1e+21`), are not modelled. Such cells are spelled as plain decimal digits in header keys and CSV fields.
- `App.NumberOf` follows `Number(...)` only for numbers and for blank text, which becomes 0. Other text is kept as text, because numeric-string parsing is not modelled.
- `Cells.Lookup` and `Utils.CsvField` read a key the record does not own as missing. In JavaScript, `row[h]` also finds names inherited from `Object.prototype` (`toString`, `constructor`, `valueOf`, `hasOwnProperty`, ...). So `convertToCSV([{toString: "a"}, {}])` writes an empty field for the second record, where the model writes `""`. Inherited property names are not modelled. Likewise a header cell `__proto__` becomes a key of the labeled row in `Normalizer.Zip`, while `obj["__proto__"] = row[i]` with a primitive or undefined value creates no own key in JavaScript. So `Normalizer.ZipKeys` overstates the keys for that one header name. No transaction field depends on it, because only the five marker columns are read.
- Cells are strings, numbers or empty only. Boolean and date cells are not modelled.
- `Text.ToLower` lower-cases ASCII letters only. For the detector's comparison with "type", "amount" and "description" this gives the same result as full `toLowerCase`: the only non-ASCII character that lower-cases to a single ASCII letter is the Kelvin sign, which becomes k, and none of those words has a k.
- A record's field order is taken as `Object.keys` order. JavaScript moves integer-like keys first, and that reordering is not modelled.
- `JSON.stringify` escaping of lone surrogates is not modelled, because Dafny characters are Unicode scalar values.
- Utils.DataLineFields: needs at least one header key. With no keys a data line is empty text, and that reads as one empty field.
