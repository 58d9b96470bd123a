/** What each formatter of the response writes: its table of headers, the
    lines that reach the response channel, the CSV records, the error body of
    `jsonError` and the choice between a compressed and a plain body. */
module Formats {
  import opened Wrappers
  import opened Assoc
  import opened Php
  import opened HeaderMap

  /** One write to the response channel: a raw header line (`header()`) or
      body text (`echo`). */
  datatype Emission = Header(line: string) | Body(text: string)

  function HeaderLine(name: string, value: string): string
  {
    name + ": " + value
  }

  /** The lines `outputHeaders` sends for a table, one per entry, in order. */
  function HeaderLines(h: Headers): (r: seq<Emission>)
    ensures |r| == |h|
    ensures forall i :: 0 <= i < |h| ==> r[i] == Header(HeaderLine(h[i].0, h[i].1))
    decreases |h|
  {
    if h == [] then []
    else HeaderLines(h[..|h| - 1]) + [Header(HeaderLine(h[|h| - 1].0, h[|h| - 1].1))]
  }

  /** Rewriting the entry at `i` rewrites its line and no other. */
  lemma HeaderLinesUpdate(h: Headers, i: nat, e: (string, string))
    requires i < |h|
    ensures HeaderLines(h[i := e]) == HeaderLines(h)[i := Header(HeaderLine(e.0, e.1))]
  {
  }

  /** After `setHeader(k, v)` the header lines are the old ones with the line
      for `k` appended when `k` is new, or rewritten where it stood. */
  lemma HeaderLinesAfterPut(h: Headers, k: string, v: string)
    requires UniqueKeys(h)
    ensures !HasKey(h, k) ==>
      HeaderLines(Put(h, k, v)) == HeaderLines(h) + [Header(HeaderLine(k, v))]
    ensures forall i :: 0 <= i < |h| && h[i].0 == k ==>
      HeaderLines(Put(h, k, v)) == HeaderLines(h)[i := Header(HeaderLine(k, v))]
  {
    if !HasKey(h, k) {
      FindSpec(h, k);
      assert (h + [(k, v)])[..|h|] == h;
    }
    forall i | 0 <= i < |h| && h[i].0 == k
      ensures HeaderLines(Put(h, k, v)) == HeaderLines(h)[i := Header(HeaderLine(k, v))]
    {
      FindUnique(h, i);
      HeaderLinesUpdate(h, i, (k, v));
    }
  }

  /** The first time `output` sets `ETag`, its line is the last header line
      sent; every line before it is unchanged. */
  lemma FirstEtagLineIsLast(h: Headers, tag: string)
    requires UniqueKeys(h) && !HasKey(h, "ETag")
    ensures |HeaderLines(Put(h, "ETag", tag))| == |h| + 1
    ensures HeaderLines(Put(h, "ETag", tag))[|h|] == Header("ETag: " + tag)
    ensures HeaderLines(Put(h, "ETag", tag))[..|h|] == HeaderLines(h)
  {
    HeaderLinesAfterPut(h, "ETag", tag);
    var lines := HeaderLines(h);
    assert (lines + [Header(HeaderLine("ETag", tag))])[..|h|] == lines;
  }

  /** The table the constructor writes. */
  function BaselineEntries(date: string): Headers
  {
    [("Access-Control-Allow-Origin", "*"), ("Date", date), ("Server", ""), ("X-Powered-By", "none")]
  }

  const HtmlEntries: Headers :=
    [("X-UA-Compatible", "IE=Edge,chrome=1"), ("X-XSS-Protection", "1; mode=block"),
     ("X-Content-Type-Options", "nosniff"), ("Content-Type", "text/html; charset=utf-8")]

  const JsonEntries: Headers :=
    [("Content-Type", "application/json; charset=utf-8"), ("Cache-Control", "public, max-age=60")]

  const XmlEntries: Headers :=
    [("Content-Type", "application/xml; charset=utf-8")]

  /** The table `csv` writes; `Cache-Control` is written twice. */
  function CsvEntries(filename: string): Headers
  {
    [("Pragma", "public"), ("Expires", "0"), ("Cache-Control", "private"),
     ("Cache-Control", "must-revalidate, post-check=0, pre-check=0"),
     ("Content-Type", "application/octet-stream"),
     ("Content-Disposition", Disposition(filename)),
     ("Content-Transfer-Encoding", "binary")]
  }

  /** The `Content-Disposition` value naming the downloaded file. */
  function Disposition(filename: string): string
  {
    "filename=\"" + filename + "\";"
  }

  /** The constructor's four `setHeader` calls, one after another. */
  lemma BaselineWrites(date: string)
    ensures
      Put(Put(Put(Put([], "Access-Control-Allow-Origin", "*"), "Date", date), "Server", ""),
          "X-Powered-By", "none")
      == PutAll([], BaselineEntries(date))
  {
    var es := BaselineEntries(date);
    PutAllStep([], es, 0);
    PutAllStep([], es, 1);
    PutAllStep([], es, 2);
    PutAllStep([], es, 3);
    assert es[..4] == es;
  }

  /** `html`'s four `setHeader` calls, one after another. */
  lemma HtmlWrites(h: Headers)
    ensures
      Put(Put(Put(Put(h, "X-UA-Compatible", "IE=Edge,chrome=1"), "X-XSS-Protection", "1; mode=block"),
              "X-Content-Type-Options", "nosniff"),
          "Content-Type", "text/html; charset=utf-8")
      == PutAll(h, HtmlEntries)
  {
    var es := HtmlEntries;
    var h1 := Put(h, "X-UA-Compatible", "IE=Edge,chrome=1");
    var h2 := Put(h1, "X-XSS-Protection", "1; mode=block");
    var h3 := Put(h2, "X-Content-Type-Options", "nosniff");
    assert PutAll(h, es[..1]) == h1 by { PutAllStep(h, es, 0); }
    assert PutAll(h, es[..2]) == h2 by { PutAllStep(h, es, 1); }
    assert PutAll(h, es[..3]) == h3 by { PutAllStep(h, es, 2); }
    PutAllStep(h, es, 3);
    assert es[..4] == es;
  }

  /** `json`'s two `setHeader` calls, one after another. */
  lemma JsonWrites(h: Headers)
    ensures
      Put(Put(h, "Content-Type", "application/json; charset=utf-8"), "Cache-Control", "public, max-age=60")
      == PutAll(h, JsonEntries)
  {
  }

  /** The first four of `csv`'s `setHeader` calls: the caching headers. */
  lemma CsvCachingWrites(h: Headers, filename: string)
    ensures
      Put(Put(Put(Put(h, "Pragma", "public"), "Expires", "0"), "Cache-Control", "private"),
          "Cache-Control", "must-revalidate, post-check=0, pre-check=0")
      == PutAll(h, CsvEntries(filename)[..4])
  {
    var es := CsvEntries(filename);
    PutAllStep(h, es, 0);
    PutAllStep(h, es, 1);
    PutAllStep(h, es, 2);
    PutAllStep(h, es, 3);
  }

  /** `csv`'s seven `setHeader` calls, one after another. */
  lemma CsvWrites(h: Headers, filename: string)
    ensures
      Put(Put(Put(Put(Put(Put(Put(h, "Pragma", "public"), "Expires", "0"), "Cache-Control", "private"),
                          "Cache-Control", "must-revalidate, post-check=0, pre-check=0"),
                      "Content-Type", "application/octet-stream"),
                  "Content-Disposition", Disposition(filename)),
          "Content-Transfer-Encoding", "binary")
      == PutAll(h, CsvEntries(filename))
  {
    var es := CsvEntries(filename);
    CsvCachingWrites(h, filename);
    PutAllStep(h, es, 4);
    PutAllStep(h, es, 5);
    PutAllStep(h, es, 6);
    assert es[..7] == es;
  }

  /** The constructor's writes, made on an empty table, leave exactly the
      baseline entries in the order written. */
  lemma BaselineTable(date: string)
    ensures UniqueKeys(BaselineEntries(date))
    ensures PutAll([], BaselineEntries(date)) == BaselineEntries(date)
  {
    FreshTableAppends([], BaselineEntries(date));
  }

  /** On a table holding none of its names, `html` appends its entries at
      the end, in the order it writes them. */
  lemma HtmlTableAppends(h: Headers)
    requires UniqueKeys(h)
    requires !HasKey(h, "X-UA-Compatible") && !HasKey(h, "X-XSS-Protection")
    requires !HasKey(h, "X-Content-Type-Options") && !HasKey(h, "Content-Type")
    ensures PutAll(h, HtmlEntries) == h + HtmlEntries
  {
    var es := HtmlEntries;
    assert es[0].0 == "X-UA-Compatible" && es[1].0 == "X-XSS-Protection";
    assert es[2].0 == "X-Content-Type-Options" && es[3].0 == "Content-Type";
    assert UniqueKeys(es);
    FreshTableAppends(h, es);
  }

  /** Likewise for `json`: `Content-Type`, then `Cache-Control`. */
  lemma JsonTableAppends(h: Headers)
    requires UniqueKeys(h)
    requires !HasKey(h, "Content-Type") && !HasKey(h, "Cache-Control")
    ensures PutAll(h, JsonEntries) == h + JsonEntries
  {
    var es := JsonEntries;
    assert es[0].0 == "Content-Type" && es[1].0 == "Cache-Control";
    FreshTableAppends(h, es);
  }

  /** `csv` writes `Cache-Control` twice and the second value is the one
      left, in a single entry. */
  lemma CsvCacheControl(h: Headers, filename: string)
    requires UniqueKeys(h)
    ensures UniqueKeys(PutAll(h, CsvEntries(filename)))
    ensures Lookup(PutAll(h, CsvEntries(filename)), "Cache-Control") ==
      Some("must-revalidate, post-check=0, pre-check=0")
  {
    var es := CsvEntries(filename);
    var cc := "Cache-Control";
    PutAllSpec(h, es);
    assert es[..4][3] == es[3] && es[3].0 == cc;
    assert es[..6][..5] == es[..5] && es[..5][..4] == es[..4];
    assert es[4].0 != cc && es[5].0 != cc && es[6].0 != cc;
    assert LastAssigned(es[..4], cc) == Some("must-revalidate, post-check=0, pre-check=0");
    assert LastAssigned(es[..5], cc) == LastAssigned(es[..4], cc);
    assert LastAssigned(es[..6], cc) == LastAssigned(es[..5], cc);
    PutAllLookup(h, es, cc);
  }

  /** `csv` names the file in `Content-Disposition`. */
  lemma CsvContentDisposition(h: Headers, filename: string)
    requires UniqueKeys(h)
    ensures Lookup(PutAll(h, CsvEntries(filename)), "Content-Disposition") ==
      Some(Disposition(filename))
  {
    var es, cd := CsvEntries(filename), "Content-Disposition";
    assert es[..6][5] == es[5] && es[5] == (cd, Disposition(filename));
    assert es[6].0 != cd;
    assert LastAssigned(es[..6], cd) == Some(es[5].1);
    assert LastAssigned(es, cd) == LastAssigned(es[..6], cd);
    PutAllLookup(h, es, cd);
  }

  /** `csv` does not compute an `ETag`: whatever the table held stays. */
  lemma CsvKeepsEtag(h: Headers, filename: string)
    requires UniqueKeys(h)
    ensures Lookup(PutAll(h, CsvEntries(filename)), "ETag") == Lookup(h, "ETag")
  {
    var es := CsvEntries(filename);
    assert forall i :: 0 <= i < |es| ==> es[i].0 != "ETag";
    PutAllLookup(h, es, "ETag");
  }

  /** The array `jsonError` encodes. */
  function ErrorPayload(code: int, details: string): PhpArray
  {
    [(StrKey("status"), Int(code)), (StrKey("object"), Str("error")), (StrKey("details"), Str(details))]
  }

  const IdKey: Key := StrKey("id")

  /** A CSV item as `csv` writes it: `id` is unset only when `isset` holds. */
  function StripId(item: PhpArray): (r: PhpArray)
    ensures !Isset(r, IdKey)
  {
    if Isset(item, IdKey) then
      UnsetDrops(item, IdKey);
      Unset(item, IdKey)
    else item
  }

  /** A set `id` is cut out of the item; every other field keeps its place. */
  lemma StripIdRemoves(item: PhpArray, j: nat)
    requires UniqueKeys(item) && j < |item|
    requires item[j].0 == IdKey && !item[j].1.Null?
    ensures StripId(item) == item[..j] + item[j + 1..]
  {
    var i :| 0 <= i < |item| && item[i] == (IdKey, Get(item, IdKey).value);
    assert i == j;
    UnsetAt(item, j);
  }

  /** `fputcsv` of an item whose `id` is set writes the fields before it
      and the fields after it, and never the `id` value. */
  lemma StripIdValues(item: PhpArray, j: nat)
    requires UniqueKeys(item) && j < |item|
    requires item[j].0 == IdKey && !item[j].1.Null?
    ensures Values(StripId(item)) == Values(item[..j]) + Values(item[j + 1..])
  {
    StripIdRemoves(item, j);
    var before, after := item[..j], item[j + 1..];
    assert |Values(before + after)| == |Values(before) + Values(after)|;
    forall i | 0 <= i < |before + after|
      ensures Values(before + after)[i] == (Values(before) + Values(after))[i]
    {
      if i < |before| {
        assert (before + after)[i] == before[i];
      } else {
        assert (before + after)[i] == after[i - |before|];
      }
    }
  }

  /** Field by field: only a set `id` disappears; an `id` holding null and
      every other field read as they did. */
  lemma StripIdFields(item: PhpArray, k: Key)
    ensures Get(StripId(item), k) == if k == IdKey && Isset(item, IdKey) then None else Get(item, k)
  {
    if Isset(item, IdKey) {
      UnsetGet(item, IdKey, k);
    }
  }

  /** The CSV records `csv` writes: the headings, then one per item. */
  function CsvRecords(headings: PhpArray, items: seq<PhpArray>, line: seq<Value> -> string): seq<string>
    decreases |items|
  {
    if items == [] then [line(Values(headings))]
    else CsvRecords(headings, items[..|items| - 1], line) + [line(Values(StripId(items[|items| - 1])))]
  }

  lemma {:induction false} CsvRecordsLayout(headings: PhpArray, items: seq<PhpArray>, line: seq<Value> -> string)
    ensures |CsvRecords(headings, items, line)| == |items| + 1
    ensures CsvRecords(headings, items, line)[0] == line(Values(headings))
    ensures forall i :: 0 <= i < |items| ==>
      CsvRecords(headings, items, line)[i + 1] == line(Values(StripId(items[i])))
    decreases |items|
  {
    if items != [] {
      var init := items[..|items| - 1];
      CsvRecordsLayout(headings, init, line);
      assert forall i :: 0 <= i < |init| ==> init[i] == items[i];
    }
  }

  /** One more item adds its record after the ones already collected. */
  lemma CsvRecordsAppend(headings: PhpArray, items: seq<PhpArray>, item: PhpArray, line: seq<Value> -> string)
    ensures Concat(CsvRecords(headings, items + [item], line)) ==
      Concat(CsvRecords(headings, items, line)) + line(Values(StripId(item)))
  {
  }

  /** Text written one piece after another. */
  function Concat(parts: seq<string>): (r: string)
    ensures |parts| == 1 ==> r == parts[0]
    decreases |parts|
  {
    if parts == [] then [] else Concat(parts[..|parts| - 1]) + parts[|parts| - 1]
  }

  /** The test `outputBody` makes on the request's `Accept-Encoding`: set,
      and `substr_count(..., 'gzip')` non-zero. */
  function GzipAccepted(acceptEncoding: Option<string>): bool
  {
    acceptEncoding.Some? && SubstrCount(acceptEncoding.value, "gzip") > 0
  }

  lemma GzipAcceptedIff(acceptEncoding: Option<string>)
    ensures GzipAccepted(acceptEncoding) <==>
      acceptEncoding.Some? && Contains(acceptEncoding.value, "gzip")
  {
    if acceptEncoding.Some? {
      SubstrCountPositive(acceptEncoding.value, "gzip");
    }
  }
}
