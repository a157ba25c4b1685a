# Portal scraper and contact cleaner, modelled in Dafny

This project models the two pieces of logic in the `scraping-mhs` repository.

1. **The portal search** (`search` in `scraper.js`). It runs one cookie session against the university portal:
   - a warm-up `GET /`, whose page must carry a CSRF `_token` input;
   - a `POST /prosesCari` with the form fields `_token`, `pencarian` (the keyword) and `pilihan_search` (the category number);
   - collection of the `href`s of the anchors inside `#datatable` on the listing page;
   - one `GET` per link, each detail page folded into a label/value record from its `table tr` rows.

   The run resolves to the array of records, or to `{error: message}` when any step fails. It never returns both.
2. **The contact cleaner** (`clearing_excel.js`):
   - `cleanPhone` normalises a phone number to digits with the Indonesian `62` prefix;
   - `nimToEmail` turns a student ID (NIM) into a `@mhs.dinus.ac.id` address;
   - the main loop keeps the sheet rows that have a NIM, a name or a phone, and maps each to a contact.

Modules, one per concern:

- `Wrappers` (`wrappers.dfy`): `Option` and `Result`.
- `Selection` (`selection.dfy`): order-preserving filtering, its positions, and the generic select-and-map loop. The link collector, the `\D` and `\.` filters and the row loop all have this shape.
- `Text` (`text.dfy`): JavaScript string semantics the code relies on. These are `trim` (ECMAScript whitespace), `startsWith`, first-occurrence `replace`, the digit and dot filters, and `Number.prototype.toString` on integers.
- `Scraper` (`scraper.dfy`): the abstract `Document`, token extraction, the payload, link collection, detail parsing and the run itself.
- `Clearing` (`clearing.dfy`): `CleanPhone`, `NimToEmail`, `CleanRows`.

How the outside world is modelled:

- **HTML pages** are already parsed into a `Document`. It holds the page's `<input>` elements (optional `name` and `value`), its anchors (whether each lies inside `#datatable`, and its optional `href`), and the `td` texts of every `table tr` row, all in document order. The scraper's own `.trim()` on each cell is modelled.
- **The network and the cookie jar** are a `Portal<S>` function parameter. It takes the session state a request is sent with and returns the next session state and either a `Document` or an error message. `S` is left abstract, so cookie handling itself is not modelled.
- **The run** returns its trace (every request with the session state it carried and its response) next to the outcome. Its contract is stated over that trace: session continuity, which requests were issued, and how the outcome relates to the responses.

Decisions about the token step, all following `scraper.js:25-27`:
- A missing token fails with the literal message `"Token gak ketemu di halaman root."`.
- A `_token` input whose `value` is present but empty also fails, because the code tests the value for truthiness.
- The token is read from the FIRST `_token` input on the page, as cheerio's `.attr` reads a selection.

## Model

| member | source | states |
|---|---|---|
| Scraper.ExtractToken | scraper.js:25-27 | a successful extraction yields a non-empty token; every failure carries the code's missing-token message |
| Scraper.FirstTokenValue | scraper.js:26 | a value is returned only when some input named `_token` carries it; that it is the FIRST such input's value is stated by FirstTokenValueIsFirst |
| Scraper.ExtractTokenSpec | scraper.js:25-27 | the token is `t` exactly when the first `_token` input of the page has the non-empty value `t`; otherwise extraction fails |
| Scraper.FirstTokenValueIsFirst | scraper.js:26 | the attribute read is that of the first input named `_token`, whatever inputs follow it |
| Scraper.BuildPayload | scraper.js:30-34 | the form has three fields; what each field carries is stated by PayloadFields |
| Scraper.PayloadFields | scraper.js:30-34 | the form has exactly the fields `_token`, `pencarian` and `pilihan_search`: the token as extracted, the keyword unchanged, and the category's canonical decimal numeral (`IntToDecimal`), which reads back to the category |
| Scraper.CollectLinks | scraper.js:44-48 | every collected link is non-empty, and there are no more links than anchors |
| Scraper.CollectLinksExact | scraper.js:44-48 | the links are exactly the `href`s of the anchors inside `#datatable` that have a non-empty `href`: one per such anchor, in document order, duplicates kept |
| Scraper.CollectLinksNone | scraper.js:44-49 | a listing without result anchors yields no links, not an error |
| Scraper.ParseDetail | scraper.js:61-67 | the label of every row with at least three cells is in the record; the full specification is ParseDetailKeys (which labels) and ParseDetailLastWins (which value) |
| Scraper.ParseDetailKeys | scraper.js:62-67 | a label is in the record exactly when some row with at least three cells has it as its trimmed first cell |
| Scraper.ParseDetailLastWins | scraper.js:62-67 | a label's value is the trimmed third cell of the last qualifying row with that label; the second cell and cells past the third never matter |
| Scraper.ParseDetailAppend | scraper.js:62-67 | parsing rows in two parts and merging with the later part winning equals parsing them whole |
| Scraper.ParseDetailShortRow | scraper.js:64 | a row with fewer than three cells adds nothing to the record |
| Scraper.FetchDetails | scraper.js:51-71 | links are fetched in order with the threaded session; on success there is one record per link, parsed from that link's page; the first failed fetch stops the loop and is the only thing reported |
| Scraper.Search | scraper.js:14-80 | one session is threaded through every request. A failed warm-up or a missing token ends the run after `GET /` with no POST. With a token, the POST carries the payload built from it. Details are fetched one per listed link, in order. A failure yields only the failing step's message. Success yields one record per link in link order. Zero links is an empty success |
| Selection.SelectFrom | clearing_excel.js:52-65 | the output holds `f` of exactly the kept elements from position `from` on, in order |
| Selection.Kept | scraper.js:45-48 | the positions kept by a filter are ascending, cover every kept element, and match the filtered sequence element for element |
| Text.Trim | clearing_excel.js:8 | neither end of the result is whitespace; TrimStartSpec and TrimEndSpec state that only leading and trailing whitespace is cut |
| Text.TrimStartSpec | clearing_excel.js:8 | leading trim leaves a suffix that does not start with whitespace, and cuts off only whitespace |
| Text.TrimEndSpec | clearing_excel.js:8 | trailing trim leaves a prefix that does not end with whitespace, and cuts off only whitespace |
| Text.TrimIdempotent | clearing_excel.js:28 | trimming twice is trimming once |
| Text.ReplaceFirst | clearing_excel.js:32 | when the string starts with the pattern, only that leading occurrence is replaced |
| Text.KeepDigitsOfTrim | clearing_excel.js:8-11 | trimming never changes the digits of a string |
| Text.KeepDigits | clearing_excel.js:11 | the result contains only ASCII digits; KeepDigitsExact states that it is exactly the input's digits, in order |
| Text.RemoveDots | clearing_excel.js:36 | the result contains no `.` and is no longer than the input; RemoveDotsExact states that it is exactly the input's other characters, in order |
| Text.RemoveDotsExact | clearing_excel.js:36 | removing dots keeps every character other than `.`, in order: the result lists exactly the non-dot positions of the input, ascending |
| Text.KeepDigitsExact | clearing_excel.js:11 | the digit filter keeps exactly the digits of the input, in order: the result lists exactly the digit positions of the input, ascending |
| Text.IntDecimalRoundTrip | scraper.js:33 | the canonical decimal numeral of every integer reads back to that integer |
| Text.IntToDecimal | scraper.js:33 | the canonical decimal numeral, as `toString` writes it: a `-` exactly for negatives, `"0"` for zero, no leading zero otherwise, digits after the sign |
| Clearing.WithCountryCode | clearing_excel.js:14-22 | the result always starts with `62` and stays a digit string when given one; the four cases over the input's digits are stated by CleanPhoneCases |
| Clearing.CleanPhone | clearing_excel.js:5-23 | the result is `""` or a digit string starting with `62` |
| Clearing.CleanPhoneByDigits | clearing_excel.js:6-12 | the leading apostrophe and trimming never change the result: it depends on the input's digits alone, `""` when there are none |
| Clearing.CleanPhoneCases | clearing_excel.js:11-22 | no digits give `""`; digits starting `62` are returned unchanged; a leading `0` becomes `62`; any other digits get `62` prepended |
| Clearing.CleanPhoneIdempotent | clearing_excel.js:11-15 | cleaning a cleaned number changes nothing |
| Clearing.RewritePrefix | clearing_excel.js:31-33 | the length is kept and a leading `A11` becomes a leading `111`; RewritePrefixPositions adds that every other character keeps its position |
| Clearing.RewritePrefixPositions | clearing_excel.js:31-33 | a leading `A11` becomes `111` and every other character keeps its position |
| Clearing.NimToEmail | clearing_excel.js:26-39 | the result is `""` or a non-empty, dot-free local part followed by `@mhs.dinus.ac.id` |
| Clearing.NimToEmailLocalPart | clearing_excel.js:27-38 | with `w` the trimmed ID after the `A11` rewrite: the address is empty exactly when `w` is all dots (or empty); otherwise the part before `@mhs.dinus.ac.id` is exactly the non-`.` characters of `w`, in order |
| Clearing.NimToEmailTrim | clearing_excel.js:28 | an ID and its trimmed form map to the same address |
| Clearing.ToContact | clearing_excel.js:53-63 | the NIM is column B and the name column C, unchanged; the email is `""` or ends with `@mhs.dinus.ac.id`; the phone is `""` or a digit string starting with `62` |
| Clearing.CleanRows | clearing_excel.js:51-65 | the header row is skipped; exactly the later rows with something in columns B, C or D each yield one contact, in sheet order (the method also returns the sheet row number of each contact) |

## Left out

- `index.js` (HTTP routing, CORS and JSON middleware, the `type` check and response shaping) is not part of this model.
- HTTP transport, base-URL resolution, the `Content-Type` header and the cookie jar are reduced to the `Portal` parameter. Cookie semantics are a library concern.
- The url-encoding of the payload by `URLSearchParams.toString()` is not modelled. The payload is kept as an ordered list of form fields.
- HTML parsing and CSS-selector evaluation by cheerio are reduced to the `Document` abstraction. This covers which anchors lie inside `#datatable`, rows of nested tables, and `.text()`.
- Scraper.ParseDetail: a label equal to `__proto__` is stored like any other. In JavaScript, assigning a string to `detail["__proto__"]` is silently ignored.
- Scraper.ParseDetail: the record is a `map`, so the key enumeration order of the JavaScript object (and so of the JSON output) is not modelled.
- Text.IntToDecimal: writes every integer in plain decimal. JavaScript switches to exponent notation at magnitude 1e21 and formats non-integers differently. The category passed in is `parseInt` of `1`, `2` or `3`.
- The category is an `int`, because both callers in `index.js` (lines 64 and 111) pass `parseInt(type)`. A `null` or `undefined` category (where `.toString()` throws) and a string category (sent unchanged) are not modelled.
- Console logging, stack traces and the token preview in the debug line are not modelled.
- The `xlsx` workbook read and write, sheet lookup and JSON-to-sheet export are not modelled. Cells are strings, so `String(...)` coercion of numeric cells is not modelled either, and neither is the falsiness of non-string values such as `0` in `!phone`, `!nim` and `|| ""`.
- The async/Promise machinery is not modelled. The run is sequential and modelled as a plain loop.
