# Snelling\Response in Dafny

`Snelling\Response` (src/Response.php) is a small PHP helper that builds an
HTTP response. It keeps a status code, an ordered header array and a body.
`html`, `json`, `jsonError` and `xml` each write a fixed list of headers in a
fixed order, store the body and send the headers and then the body. `csv`
writes its download headers, sends them, and then sends CSV records rather
than the stored body. `redirect` and `upgradeSSL` set `Location` and send the
headers only. `render` renders a template and hands the page to `html` or
`xml`; for an unknown format it sends nothing and returns false.

This project models that class as a Dafny `class Response` whose fields are
changed in place by its methods:

- `headers` is a sequence of (name, value) pairs in insertion order, with
  distinct names. `setHeader` follows PHP array assignment: a new name is
  appended at the end, and an existing name is overwritten where it already
  sits.
- The response channel is the log `emitted`. Each `header()` call appends a
  `Header(line)` to it, and each `echo` appends a `Body(text)`.
- The outside world is a `Host` value given to the constructor. It supplies
  the request's `Accept-Encoding`, `md5`, the `ob_gzhandler` filter,
  `json_encode`, the line `fputcsv` writes and the template engine's
  `render`. The `Date` header value is a constructor argument.
- Under `declare(strict_types=1)`, some calls end in a `TypeError` rather
  than returning. These calls return an `Outcome`, which is either
  `Returned(b)` or `TypeError`.

Modules:

- `Wrappers` holds `Option`.
- `Assoc` holds the invariant shared by PHP arrays and the header table:
  no key occurs twice.
- `Php` holds PHP values and arrays, `isset`/`unset` on an array key, and
  `substr_count`.
- `HeaderMap` holds the ordered header array: `setHeader` as `Put`, a run
  of writes as `PutAll`, and reads as `Lookup`.
- `Formats` holds:
  - each formatter's header table;
  - the header lines `outputHeaders` sends;
  - the CSV records;
  - the JSON error payload;
  - the gzip decision.
- `Snelling` holds the class.

## Model

| member | source | states |
|---|---|---|
| Snelling.Response.constructor | src/Response.php:23-33 | The status code is 200. The headers are exactly, in this order: `Access-Control-Allow-Origin: *`, `Date`, `Server` (empty), `X-Powered-By: none`. The view data is empty, no body is set and nothing has been sent. |
| Snelling.Response.SetHeader | src/Response.php:219-224 | Returns true. The new table is `Put(old, k, v)`, and names stay distinct. `HeaderMap.PutSpec` states what `Put` does. |
| Snelling.Response.SetResponseCode | src/Response.php:230-235 | Returns true and stores the code (default 200). Nothing else changes. |
| Snelling.Response.SetBody | src/Response.php:207-212 | Returns true and stores the body. Nothing else changes. |
| Snelling.Response.SetViewsDirectory | src/Response.php:241-246 | Returns true. The views directory changes, and a new engine starts with no view data. |
| Snelling.Response.AddViewData | src/Response.php:264-269 | Returns true. The data is merged into the view data, and later values win. |
| Snelling.Response.OutputHeaders | src/Response.php:147-154 | Returns true. The log grows by exactly one `name: value` line per entry, in table order, and no field changes. |
| Snelling.Response.OutputBody | src/Response.php:127-142 | Returns true and sends the body, through the gzip filter exactly when the request accepts gzip. An unset body sends empty text. |
| Snelling.Response.Output | src/Response.php:115-122 | Sets `ETag` to the md5 of the body, then sends the headers, including `ETag`, then the body, and returns true. An unset body is a `TypeError` that changes nothing. |
| Snelling.Response.Html | src/Response.php:69-78 | Writes the four html headers in order, stores the body and outputs it. It returns true, and the table and the log equal that sequence of writes followed by `output`. |
| Snelling.Response.Json | src/Response.php:84-92 | Writes `Content-Type`, then `Cache-Control`. If the data encodes, it stores the encoding and outputs it. If `json_encode` fails, both headers stay set and the call is a `TypeError` with nothing sent. |
| Snelling.Response.JsonError | src/Response.php:99-110 | Stores the code (default 500) first, then answers with `json` of `{status: code, object: "error", details}`. Both outcomes of `json` carry through. |
| Snelling.Response.Xml | src/Response.php:252-258 | Writes `Content-Type: application/xml; charset=utf-8`, stores the body, outputs it and returns true. |
| Snelling.Response.Csv | src/Response.php:35-63 | The headers become the seven csv writes applied to the old table. Then the header lines and one body text holding all CSV records are sent. The body, the status code and `ETag` are not touched, and it returns true. |
| Snelling.Response.CsvBuffer | src/Response.php:46-60 | The buffered text is the headings record followed by one record per item, with a set `id` removed from each item. |
| Snelling.Response.Redirect | src/Response.php:173-178 | Sets `Location` (default `/`) and sends the header lines only. No body is written. |
| Snelling.Response.UpgradeSsl | src/Response.php:161-167 | The status code is 301 and `Location` is `https://` + host + uri. The header lines are sent twice and no body is written. |
| Snelling.Response.Render | src/Response.php:186-201 | The parameters are always merged into the view data first. `html` and `xml` serve the rendered page. `json` is a `TypeError`. Any other format returns false with the headers, body and log unchanged. |
| Snelling.SentCompressesExactlyOnGzip | src/Response.php:129-141 | The body goes through the gzip filter if and only if `Accept-Encoding` is present and contains `gzip`. |
| Formats.GzipAcceptedIff | src/Response.php:129 | The `isset && substr_count(...)` test holds if and only if the header is set and contains `gzip`. |
| Php.SubstrCountPositive | src/Response.php:129 | `substr_count` is non-zero if and only if the needle occurs in the haystack. |
| HeaderMap.FindSpec | src/Response.php:221 | The slot an assignment writes to is the entry named `k`. There is none exactly when `k` is absent. |
| HeaderMap.Lookup | src/Response.php:221 | Reading a name gives a value if and only if the name is present, and that value is stored under the name. |
| HeaderMap.PutSpec | src/Response.php:221 | A new name is appended at the end. An existing name keeps its position, only its value changes, and all other entries stay as they were. Names stay distinct. |
| HeaderMap.PutLookup | src/Response.php:221 | After a write, the written name reads the new value and every other name reads as before. |
| HeaderMap.PutTwice | src/Response.php:39-40 | Writing a name twice equals writing it once with the second value, at the first write's position. |
| HeaderMap.PutCurrentValue | src/Response.php:221 | Writing the value a name already holds leaves the table unchanged. |
| HeaderMap.PutAllSpec | src/Response.php:37-43 | A run of writes keeps names distinct and never shrinks the table. Every entry already present stays at its position. |
| HeaderMap.LastAssigned | src/Response.php:37-43 | A run assigns a name if and only if it writes that name. |
| HeaderMap.PutAllLookup | src/Response.php:37-43 | After a run of writes, each name holds the last value written to it, or its old value if the run never wrote it. |
| HeaderMap.PutAllAppends | src/Response.php:71-74 | Writes of distinct new names append them in write order. |
| HeaderMap.FreshTableAppends | src/Response.php:29-32 | A table of distinct names, none already present, lands at the end of the table in table order. |
| HeaderMap.PutAllStep | src/Response.php:37-43 | Proof helper: the first n+1 writes of a run equal the first n writes followed by one more write. |
| HeaderMap.Put | src/Response.php:221 | Definition of the assignment `$this->headers[$key] = $value`. Characterised by `HeaderMap.PutSpec` and `HeaderMap.PutLookup`. |
| HeaderMap.PutAll | src/Response.php:37-43 | Definition: a run of `setHeader` calls in order. Characterised by `HeaderMap.PutAllSpec` and `HeaderMap.PutAllLookup`. |
| Php.Isset | src/Response.php:53 | Definition of `isset($item['id'])`: the key is present and its value is not null. Characterised by `Formats.StripIdFields`. |
| Php.Unset | src/Response.php:54 | Definition of `unset($item['id'])`. Characterised by `Php.UnsetDrops`, `Php.UnsetGet` and `Php.UnsetAt`. |
| Php.SubstrCount | src/Response.php:129 | Definition of `substr_count`: non-overlapping matches scanned from the left. Characterised by `Php.SubstrCountPositive`. |
| Formats.CsvRecords | src/Response.php:49-57 | Definition of the records written. Characterised by `Formats.CsvRecordsLayout`. |
| Formats.ErrorPayload | src/Response.php:104-108 | Definition of the array `jsonError` encodes: `status`, `object` = `error`, `details`, in that order. |
| Formats.GzipAccepted | src/Response.php:129 | Definition of the test on `Accept-Encoding`. Characterised by `Formats.GzipAcceptedIff`. |
| Snelling.Sent | src/Response.php:129-141 | Definition of the text `outputBody` sends. Characterised by `Snelling.SentCompressesExactlyOnGzip`. |
| Snelling.Response.BodyText | src/Response.php:131 | Definition: `echo` of an unset body writes nothing. |
| Formats.HeaderLines | src/Response.php:149-151 | One `Header` line `name: value` per entry, at the same index. |
| Formats.HeaderLinesUpdate | src/Response.php:149-151 | Proof helper: rewriting the entry at i rewrites line i and no other. |
| Formats.HeaderLinesAfterPut | src/Response.php:149-151 | After `setHeader`, a new name adds its line at the end, and an existing name's line is rewritten in place. |
| Formats.FirstEtagLineIsLast | src/Response.php:117-118 | The first time `output` sets `ETag`, its line is the last header line sent, and all earlier lines are unchanged. |
| Formats.BaselineWrites | src/Response.php:29-32 | Proof helper: the constructor's four nested writes equal the run of the baseline table on an empty array. |
| Formats.BaselineTable | src/Response.php:29-32 | That run leaves exactly the baseline table, whose names are distinct. |
| Formats.HtmlWrites | src/Response.php:71-74 | Proof helper: `html`'s four nested writes equal the run of its table. |
| Formats.HtmlTableAppends | src/Response.php:71-74 | On a table holding none of its names, `html` appends its four entries in write order. |
| Formats.JsonWrites | src/Response.php:87-88 | Proof helper: `json`'s two nested writes equal the run of its table. |
| Formats.JsonTableAppends | src/Response.php:87-88 | On a table without `Content-Type` or `Cache-Control`, `json` appends those two entries in that order. |
| Formats.CsvCachingWrites | src/Response.php:37-40 | Proof helper: `csv`'s first four nested writes equal the run of the first four entries of its table. |
| Formats.CsvWrites | src/Response.php:37-43 | Proof helper: `csv`'s seven nested writes equal the run of its table. |
| Formats.CsvCacheControl | src/Response.php:39-40 | After `csv`, `Cache-Control` holds `must-revalidate, post-check=0, pre-check=0`, and names stay distinct, so it is one entry. |
| Formats.CsvContentDisposition | src/Response.php:42 | After `csv`, `Content-Disposition` is `filename="<name>";`. |
| Formats.CsvKeepsEtag | src/Response.php:37-43 | `csv` does not touch `ETag`. Whatever the table held under it stays. |
| Formats.StripId | src/Response.php:53-55 | After the `isset`/`unset` step, `id` is not set. |
| Formats.StripIdRemoves | src/Response.php:53-55 | A set `id` is cut out of the item, and every other field keeps its order. |
| Formats.StripIdFields | src/Response.php:53-55 | Only a set `id` disappears. An `id` holding null, and every other field, read as they did before. |
| Formats.CsvRecordsLayout | src/Response.php:49-57 | There are \|items\|+1 records. The headings come first, and record i+1 is item i with a set `id` removed. |
| Formats.CsvRecordsAppend | src/Response.php:52-57 | Proof helper: each further item appends its record to the text already buffered. |
| Php.Get | src/Response.php:53 | Reading a key gives a value if and only if the key is present, and that value is stored under the key. |
| Php.UnsetDrops | src/Response.php:54 | After `unset`, no entry has the key and `isset` is false for it. |
| Php.UnsetGet | src/Response.php:54 | `unset` removes its own key only. Every other key reads as before. |
| Php.UnsetAt | src/Response.php:54 | Unsetting the key at position j removes exactly that entry and keeps the others in order. |
| Php.UnsetAbsent | src/Response.php:54 | Unsetting an absent key leaves the array as it is. |
| Php.Values | src/Response.php:56 | Definition: the fields `fputcsv` writes, the array's values in order. Characterised by `Formats.StripIdValues`. |
| Formats.StripIdValues | src/Response.php:53-56 | For an item whose `id` is set, `fputcsv` writes the fields before `id` and the fields after it, and never the `id` value. |

## Left out

- Transport I/O is recorded in the `emitted` log and never performed. This covers `header()`, `echo`, `ob_start`, `ob_end_flush`, `ob_get_clean` and `fopen('php://output')`. How PHP orders headers against body bytes on the wire is not modelled.
- `md5`, the `ob_gzhandler` compression, `json_encode` with `JSON_PRETTY_PRINT`, `fputcsv`'s quoting, and the Plates engine's `render` are opaque functions of the `Host` value. The model does not reimplement any of them.
- The headers `ob_gzhandler` adds by itself, such as `Content-Encoding` and `Vary`, are not modelled.
- `date('D, d M Y H:i:s \G\M\T')` is the constructor's `date` argument, and `$_SERVER['HTTP_ACCEPT_ENCODING']` is `Host.acceptEncoding`. A missing value and a null value are both `None`.
- The status code is only stored. No method sends it, so it never appears in the log.
- Snelling.Response.AddViewData: view data is a map from string keys. Plates' `addData` merges with `array_merge`, which renumbers integer keys. Integer keys and the string-template form of `addData` are not modelled.
- Snelling.Response.Render: exceptions the template engine throws, such as a missing template, are not modelled. The engine is a total function here.
- Php.Get: floats and objects are not PHP values in this model. Neither are the notices `fputcsv` raises for nested arrays.
- Snelling.Response.Csv: `fputcsv` writes to `php://output` through the output buffer. The model treats the buffered records as one piece of body text, sent after the header lines.
- Snelling.Response.SetHeader: the value is a string. In the source `$value` is untyped, and line 150 turns it into a string when the headers are sent. `5` sends "5", `true` sends "1", `null` sends "", and an array sends "Array" with a notice. An object without `__toString` throws an `Error` partway through the `outputHeaders` loop, after some lines have already gone out. None of these conversions or that failure is modelled.
- Snelling.Response.Csv: each data item is an array. In the source an item that is not an array makes `fputcsv` throw a `TypeError`. By then the header lines and the headings record have already gone out. That `TypeError` is not modelled.
- Snelling.Response.Output: the model covers the unset body that strict typing rejects in `md5`. It does not model a body set to a non-string, because `setBody` only accepts strings.
