/** `Snelling\Response`: a response builder that keeps a status code, an
    ordered header table and a body, and writes them to the response channel
    in one of several formats. The channel is the `emitted` log. */
module Snelling {
  import opened Wrappers
  import opened Assoc
  import opened Php
  import opened HeaderMap
  import opened Formats

  /** What the class reaches outside itself: the request's `Accept-Encoding`
      (`$_SERVER['HTTP_ACCEPT_ENCODING']`, None when unset or null), `md5`,
      the `ob_gzhandler` output filter, `json_encode` with pretty printing
      (None for its `false`), the line `fputcsv` writes for a list of fields,
      and the template engine's `render` for a views directory, a template and
      the accumulated view data. */
  datatype Host = Host(
    acceptEncoding: Option<string>,
    md5: string -> string,
    gzip: string -> string,
    jsonEncode: Value -> Option<string>,
    csvLine: seq<Value> -> string,
    render: (string, string, map<string, Value>) -> string)

  /** How a call ends: it returns a bool, or throws the `TypeError` that
      strict typing raises. */
  datatype Outcome = Returned(value: bool) | TypeError

  /** The bytes `outputBody` sends for a body: through the gzip handler when
      the request accepts gzip, verbatim otherwise. */
  function Sent(host: Host, text: string): string
  {
    if GzipAccepted(host.acceptEncoding) then host.gzip(text) else text
  }

  /** The compressed path is taken exactly when `Accept-Encoding` is set and
      contains `gzip`. */
  lemma SentCompressesExactlyOnGzip(host: Host, text: string)
    ensures host.acceptEncoding.Some? && Contains(host.acceptEncoding.value, "gzip") ==>
      Sent(host, text) == host.gzip(text)
    ensures !(host.acceptEncoding.Some? && Contains(host.acceptEncoding.value, "gzip")) ==>
      Sent(host, text) == text
  {
    GzipAcceptedIff(host.acceptEncoding);
  }

  class Response {
    const host: Host
    var viewsDirectory: string
    var viewData: map<string, Value>
    var body: Option<string>
    var headers: Headers
    var responseCode: int
    var emitted: seq<Emission>

    ghost predicate Valid()
      reads this
    {
      UniqueKeys(headers)
    }

    /** The state after a formatter wrote `entries`, stored `text` as the
        body and called `output`, starting from headers `h0` and log `e0`. */
    ghost predicate Served(h0: Headers, e0: seq<Emission>, entries: Headers, text: string)
      requires UniqueKeys(h0)
      reads this
    {
      && body == Some(text)
      && headers == Put(PutAll(h0, entries), "ETag", host.md5(text))
      && emitted == e0 + HeaderLines(headers) + [Body(Sent(host, text))]
    }

    /** The text `echo $this->body` writes; an unset body writes nothing. */
    function BodyText(): string
      reads this
    {
      if body.Some? then body.value else ""
    }

    constructor (host: Host, date: string, viewsDirectory: string := "/")
      ensures Valid()
      ensures this.host == host && this.viewsDirectory == viewsDirectory && viewData == map[]
      ensures responseCode == 200
      ensures headers == BaselineEntries(date)
      ensures body == None && emitted == []
    {
      this.host := host;
      this.viewsDirectory := viewsDirectory;
      viewData := map[];
      body := None;
      headers := [];
      responseCode := 0;
      emitted := [];
      new;
      var ok := SetResponseCode(200);
      ok := SetHeader("Access-Control-Allow-Origin", "*");
      ok := SetHeader("Date", date);
      ok := SetHeader("Server", "");
      ok := SetHeader("X-Powered-By", "none");
      assert headers == BaselineEntries(date) && Valid() by {
        BaselineWrites(date);
        BaselineTable(date);
      }
    }

    method SetHeader(key: string, value: string) returns (ok: bool)
      requires Valid()
      modifies this`headers
      ensures Valid() && ok
      ensures headers == Put(old(headers), key, value)
    {
      PutSpec(headers, key, value);
      headers := Put(headers, key, value);
      ok := true;
    }

    method SetResponseCode(code: int := 200) returns (ok: bool)
      modifies this`responseCode
      ensures ok && responseCode == code
    {
      responseCode := code;
      ok := true;
    }

    method SetBody(data: string) returns (ok: bool)
      modifies this`body
      ensures ok && body == Some(data)
    {
      body := Some(data);
      ok := true;
    }

    /** A new template engine: the view data gathered so far is dropped. */
    method SetViewsDirectory(directory: string) returns (ok: bool)
      modifies this`viewsDirectory, this`viewData
      ensures ok && viewsDirectory == directory && viewData == map[]
    {
      viewsDirectory := directory;
      viewData := map[];
      ok := true;
    }

    /** The engine's `addData`: later values win. */
    method AddViewData(data: map<string, Value>) returns (ok: bool)
      modifies this`viewData
      ensures ok && viewData == old(viewData) + data
    {
      viewData := viewData + data;
      ok := true;
    }

    method OutputHeaders() returns (ok: bool)
      modifies this`emitted
      ensures ok && emitted == old(emitted) + HeaderLines(headers)
    {
      var i := 0;
      while i < |headers|
        invariant 0 <= i <= |headers|
        invariant emitted == old(emitted) + HeaderLines(headers[..i])
      {
        assert headers[..i + 1][..i] == headers[..i];
        emitted := emitted + [Header(HeaderLine(headers[i].0, headers[i].1))];
        i := i + 1;
      }
      assert headers[..i] == headers;
      ok := true;
    }

    method OutputBody() returns (ok: bool)
      modifies this`emitted
      ensures ok && emitted == old(emitted) + [Body(Sent(host, BodyText()))]
    {
      if GzipAccepted(host.acceptEncoding) {
        emitted := emitted + [Body(host.gzip(BodyText()))];
        return true;
      }
      emitted := emitted + [Body(BodyText())];
      ok := true;
    }

    /** Sets `ETag` to the hash of the body, then sends the headers and the
        body. `md5` of an unset body is a `TypeError` under strict typing. */
    method Output() returns (r: Outcome)
      requires Valid()
      modifies this`headers, this`emitted
      ensures Valid()
      ensures old(body).None? ==> r == TypeError && headers == old(headers) && emitted == old(emitted)
      ensures old(body).Some? ==>
        && r == Returned(true)
        && headers == Put(old(headers), "ETag", host.md5(body.value))
        && emitted == old(emitted) + HeaderLines(headers) + [Body(Sent(host, body.value))]
    {
      if body.None? {
        return TypeError;
      }
      var text := body.value;
      var ok := SetHeader("ETag", host.md5(text));
      ok := OutputHeaders();
      ghost var afterHeaders := emitted;
      ok := OutputBody();
      assert BodyText() == text;
      assert emitted == afterHeaders + [Body(Sent(host, text))];
      r := Returned(true);
    }

    method Html(data: string) returns (r: Outcome)
      requires Valid()
      modifies this`headers, this`body, this`emitted
      ensures Valid() && r == Returned(true)
      ensures Served(old(headers), old(emitted), HtmlEntries, data)
    {
      var ok := SetHeader("X-UA-Compatible", "IE=Edge,chrome=1");
      ok := SetHeader("X-XSS-Protection", "1; mode=block");
      ok := SetHeader("X-Content-Type-Options", "nosniff");
      ok := SetHeader("Content-Type", "text/html; charset=utf-8");
      HtmlWrites(old(headers));
      ok := SetBody(data);
      r := Output();
    }

    /** Encodes `data` first; a failed encoding (`false`) reaches `setBody`
        after both headers are set and is a `TypeError` there. */
    method Json(data: PhpArray := []) returns (r: Outcome)
      requires Valid()
      modifies this`headers, this`body, this`emitted
      ensures Valid()
      ensures host.jsonEncode(Arr(data)).None? ==>
        && r == TypeError
        && headers == PutAll(old(headers), JsonEntries)
        && body == old(body) && emitted == old(emitted)
      ensures host.jsonEncode(Arr(data)).Some? ==>
        && r == Returned(true)
        && Served(old(headers), old(emitted), JsonEntries, host.jsonEncode(Arr(data)).value)
    {
      var json := host.jsonEncode(Arr(data));
      var ok := SetHeader("Content-Type", "application/json; charset=utf-8");
      ok := SetHeader("Cache-Control", "public, max-age=60");
      JsonWrites(old(headers));
      if json.None? {
        return TypeError;
      }
      ok := SetBody(json.value);
      r := Output();
    }

    /** Stores the status code, then answers with the JSON error body. */
    method JsonError(code: int := 500, details: string := "") returns (r: Outcome)
      requires Valid()
      modifies this`responseCode, this`headers, this`body, this`emitted
      ensures Valid() && responseCode == code
      ensures host.jsonEncode(Arr(ErrorPayload(code, details))).None? ==>
        && r == TypeError
        && headers == PutAll(old(headers), JsonEntries)
        && body == old(body) && emitted == old(emitted)
      ensures host.jsonEncode(Arr(ErrorPayload(code, details))).Some? ==>
        && r == Returned(true)
        && Served(old(headers), old(emitted), JsonEntries,
                  host.jsonEncode(Arr(ErrorPayload(code, details))).value)
    {
      var ok := SetResponseCode(code);
      r := Json(ErrorPayload(code, details));
    }

    method Xml(data: string) returns (r: Outcome)
      requires Valid()
      modifies this`headers, this`body, this`emitted
      ensures Valid() && r == Returned(true)
      ensures Served(old(headers), old(emitted), XmlEntries, data)
    {
      var ok := SetHeader("Content-Type", "application/xml; charset=utf-8");
      assert headers == PutAll(old(headers), [] + [("Content-Type", "application/xml; charset=utf-8")]);
      ok := SetBody(data);
      r := Output();
    }

    /** Sends download headers, then the headings record and one record per
        item with a set `id` removed, all through one output buffer. The body
        and `ETag` are not involved. */
    method Csv(filename: string, headings: PhpArray := [], data: seq<PhpArray> := []) returns (ok: bool)
      requires Valid()
      modifies this`headers, this`emitted
      ensures Valid() && ok
      ensures headers == PutAll(old(headers), CsvEntries(filename))
      ensures body == old(body) && responseCode == old(responseCode)
      ensures emitted == old(emitted) + HeaderLines(headers) + [Body(Concat(CsvRecords(headings, data, host.csvLine)))]
    {
      ok := SetHeader("Pragma", "public");
      ok := SetHeader("Expires", "0");
      ok := SetHeader("Cache-Control", "private");
      ok := SetHeader("Cache-Control", "must-revalidate, post-check=0, pre-check=0");
      ok := SetHeader("Content-Type", "application/octet-stream");
      ok := SetHeader("Content-Disposition", Disposition(filename));
      ok := SetHeader("Content-Transfer-Encoding", "binary");
      CsvWrites(old(headers), filename);
      ok := OutputHeaders();

      var buffer := CsvBuffer(headings, data);
      emitted := emitted + [Body(buffer)];
      ok := true;
    }

    /** What `csv` collects in its output buffer: the headings record, then
        one record per item, `id` removed from an item where it is set. */
    method CsvBuffer(headings: PhpArray, data: seq<PhpArray>) returns (buffer: string)
      ensures buffer == Concat(CsvRecords(headings, data, host.csvLine))
    {
      buffer := host.csvLine(Values(headings));
      var i := 0;
      assert data[..0] == [];
      while i < |data|
        invariant 0 <= i <= |data|
        invariant buffer == Concat(CsvRecords(headings, data[..i], host.csvLine))
      {
        var item := data[i];
        if Isset(item, IdKey) {
          item := Unset(item, IdKey);
        }
        assert item == StripId(data[i]);
        buffer := buffer + host.csvLine(Values(item));
        assert buffer == Concat(CsvRecords(headings, data[..i + 1], host.csvLine)) by {
          assert data[..i + 1] == data[..i] + [data[i]];
          CsvRecordsAppend(headings, data[..i], data[i], host.csvLine);
        }
        i := i + 1;
      }
      assert data[..i] == data;
    }

    /** Sets `Location` and sends the headers; no body is written. */
    method Redirect(location: string := "/") returns (ok: bool)
      requires Valid()
      modifies this`headers, this`emitted
      ensures Valid() && ok
      ensures headers == Put(old(headers), "Location", location)
      ensures emitted == old(emitted) + HeaderLines(headers)
    {
      ok := SetHeader("Location", location);
      ok := OutputHeaders();
    }

    /** A permanent redirect to the https address; `redirect` has already
        sent the headers once and they are sent a second time. */
    method UpgradeSsl(httpHost: string := "", requestUri: string := "") returns (ok: bool)
      requires Valid()
      modifies this`responseCode, this`headers, this`emitted
      ensures Valid() && ok && responseCode == 301
      ensures headers == Put(old(headers), "Location", "https://" + httpHost + requestUri)
      ensures emitted == old(emitted) + HeaderLines(headers) + HeaderLines(headers)
    {
      ok := SetResponseCode(301);
      ok := Redirect("https://" + httpHost + requestUri);
      ok := OutputHeaders();
    }

    /** Merges the parameters into the view data, renders the template and
        hands the page to the formatter `format` names. `json` expects an
        array and a page is a string: a `TypeError`. Any other format returns
        false with the headers and the body untouched. */
    method Render(template: string, parameters: map<string, Value> := map[], format: string := "html")
      returns (r: Outcome)
      requires Valid()
      modifies this`viewData, this`headers, this`body, this`emitted
      ensures Valid() && viewData == old(viewData) + parameters
      ensures format == "html" ==>
        r == Returned(true) &&
        Served(old(headers), old(emitted), HtmlEntries, host.render(viewsDirectory, template, viewData))
      ensures format == "xml" ==>
        r == Returned(true) &&
        Served(old(headers), old(emitted), XmlEntries, host.render(viewsDirectory, template, viewData))
      ensures format != "html" && format != "xml" ==>
        && r == (if format == "json" then TypeError else Returned(false))
        && headers == old(headers) && body == old(body) && emitted == old(emitted)
    {
      var ok := AddViewData(parameters);
      var page := host.render(viewsDirectory, template, viewData);
      if format == "html" {
        r := Html(page);
        return;
      }
      if format == "json" {
        return TypeError;
      }
      if format == "xml" {
        r := Xml(page);
        return;
      }
      r := Returned(false);
    }
  }
}
