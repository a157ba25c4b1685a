/** The portal search of `scraper.js`: a warm-up GET for the CSRF token, the
    search POST, collection of the result links, and one detail page fetched and
    parsed per link, with any failure ending the run in a single error. */
module Scraper {
  import opened Wrappers
  import opened Selection
  import opened Text

  // ---------------------------------------------------------------------------
  // Abstract documents
  // ---------------------------------------------------------------------------

  /** An `<input>` element with its `name` and `value` attributes, if set. */
  datatype InputField = InputField(name: Option<string>, value: Option<string>)

  /** An `<a>` element: whether it lies inside the `#datatable` container, and
      its `href` attribute, if set. */
  datatype Anchor = Anchor(inResults: bool, href: Option<string>)

  /** A parsed HTML page, reduced to what the scraper reads from it: its input
      fields, its anchors and the `td` texts of each `table tr` row, all in
      document order. */
  datatype Document = Document(inputs: seq<InputField>, anchors: seq<Anchor>, rows: seq<seq<string>>)

  /** One field of a url-encoded form body. */
  datatype FormField = FormField(name: string, value: string)

  /** The two kinds of request the scraper issues, with paths relative to the
      portal's base URL. */
  datatype Request = Get(path: string) | Post(path: string, form: seq<FormField>)

  /** A detail record: field label to field value. */
  type Record = map<string, string>

  /** What `search` resolves to: the record array, or `{error: message}`. */
  datatype Outcome = Records(records: seq<Record>) | Failed(message: string)

  /** The portal behind one cookie session.  Given the session state a request is
      sent with, it yields the session state afterwards (cookies set by the
      response folded in) and either the parsed page or the transport error's
      message. */
  type Portal<!S> = (S, Request) -> (S, Result<Document>)

  /** One request as it was sent, with the session it carried and its response. */
  datatype Exchange<S> = Exchange(session: S, request: Request, response: Result<Document>)

  const TokenFieldName := "_token"
  const KeywordFieldName := "pencarian"
  const CategoryFieldName := "pilihan_search"
  const SearchPath := "/prosesCari"
  const RootPath := "/"
  /** The message thrown when the warm-up page carries no usable token. */
  const TokenMissing := "Token gak ketemu di halaman root."

  // ---------------------------------------------------------------------------
  // Token extraction
  // ---------------------------------------------------------------------------

  /** Matches the selector `input[name="_token"]`. */
  predicate IsTokenInput(f: InputField) {
    f.name == Some(TokenFieldName)
  }

  /** `i` is the first token input of the page. */
  ghost predicate FirstTokenInputAt(inputs: seq<InputField>, i: int) {
    0 <= i < |inputs| && IsTokenInput(inputs[i])
    && forall j :: 0 <= j < i ==> !IsTokenInput(inputs[j])
  }

  /** The `value` attribute of the first token input, as cheerio's `.attr` reads
      it from a selection; `None` when there is no token input or it has no value. */
  function FirstTokenValue(inputs: seq<InputField>): (r: Option<string>)
    ensures r.Some? ==> exists f :: f in inputs && IsTokenInput(f) && f.value == r
    decreases |inputs|
  {
    if inputs == [] then None
    else if IsTokenInput(inputs[0]) then inputs[0].value
    else FirstTokenValue(inputs[1..])
  }

  /** The CSRF token of the warm-up page; an absent or empty value is the
      error the run ends with. */
  function ExtractToken(page: Document): (r: Result<string>)
    ensures r.Ok? ==> r.value != ""
    ensures r.Err? ==> r.error == TokenMissing
  {
    match FirstTokenValue(page.inputs)
    case Some(t) => if t != "" then Ok(t) else Err(TokenMissing)
    case None => Err(TokenMissing)
  }

  /** `FirstTokenValue` reads the first token input, whatever follows it. */
  lemma {:induction false} FirstTokenValueIsFirst(inputs: seq<InputField>, t: string)
    ensures FirstTokenValue(inputs) == Some(t) <==>
      exists i :: FirstTokenInputAt(inputs, i) && inputs[i].value == Some(t)
    decreases |inputs|
  {
    if inputs != [] && !IsTokenInput(inputs[0]) {
      FirstTokenValueIsFirst(inputs[1..], t);
      if exists i :: FirstTokenInputAt(inputs, i) && inputs[i].value == Some(t) {
        var i :| FirstTokenInputAt(inputs, i) && inputs[i].value == Some(t);
        assert FirstTokenInputAt(inputs[1..], i - 1);
      }
      if exists i :: FirstTokenInputAt(inputs[1..], i) && inputs[1..][i].value == Some(t) {
        var i :| FirstTokenInputAt(inputs[1..], i) && inputs[1..][i].value == Some(t);
        assert FirstTokenInputAt(inputs, i + 1);
      }
    } else if inputs != [] {
      forall i | FirstTokenInputAt(inputs, i) ensures i == 0 {}
      assert FirstTokenInputAt(inputs, 0);
    }
  }

  /** The token is `t` exactly when the page's first `_token` input carries the
      non-empty value `t`; in every other case extraction fails. */
  lemma ExtractTokenSpec(page: Document, t: string)
    ensures ExtractToken(page) == Ok(t) <==>
      t != "" && exists i :: FirstTokenInputAt(page.inputs, i) && page.inputs[i].value == Some(t)
  {
    FirstTokenValueIsFirst(page.inputs, t);
  }

  // ---------------------------------------------------------------------------
  // Search payload
  // ---------------------------------------------------------------------------

  /** The form of the search POST, fields in insertion order. */
  function BuildPayload(token: string, keyword: string, category: int): (p: seq<FormField>)
    ensures |p| == 3
  {
    [ FormField(TokenFieldName, token),
      FormField(KeywordFieldName, keyword),
      FormField(CategoryFieldName, IntToDecimal(category)) ]
  }

  /** The value a form submits under `name` (the first field of that name). */
  function FormValue(form: seq<FormField>, name: string): Option<string>
    decreases |form|
  {
    if form == [] then None
    else if form[0].name == name then Some(form[0].value)
    else FormValue(form[1..], name)
  }

  /** The payload submits exactly the three fields `_token`, `pencarian` and
      `pilihan_search`: the token as extracted, the keyword unchanged, and the
      category as a numeral that reads back to the category. */
  lemma PayloadFields(token: string, keyword: string, category: int, name: string)
    ensures var p := BuildPayload(token, keyword, category);
      && FormValue(p, TokenFieldName) == Some(token)
      && FormValue(p, KeywordFieldName) == Some(keyword)
      && FormValue(p, CategoryFieldName) == Some(IntToDecimal(category))
      && ParseDecimal(FormValue(p, CategoryFieldName).value) == Some(category)
      && (FormValue(p, name).Some? <==> name in {TokenFieldName, KeywordFieldName, CategoryFieldName})
  {
    IntDecimalRoundTrip(category);
    var p := BuildPayload(token, keyword, category);
    assert p[1..][1..][1..] == [];
    assert FormValue(p[1..][1..], name) == if name == CategoryFieldName then Some(IntToDecimal(category)) else None;
    assert FormValue(p, CategoryFieldName) == FormValue(p[1..][1..], CategoryFieldName);
  }

  // ---------------------------------------------------------------------------
  // Link collection
  // ---------------------------------------------------------------------------

  /** Matches `#datatable a` and has a truthy (present, non-empty) `href`. */
  predicate IsResultLink(a: Anchor) {
    a.inResults && a.href.Some? && a.href.value != ""
  }

  /** The `href`s of the result anchors, in document order. */
  function CollectLinks(anchors: seq<Anchor>): (links: seq<string>)
    ensures |links| <= |anchors|
    ensures forall k :: 0 <= k < |links| ==> links[k] != ""
  {
    var kept := Filter(anchors, IsResultLink);
    seq(|kept|, k requires 0 <= k < |kept| => kept[k].href.value)
  }

  /** The collected links are exactly the `href`s of the result anchors: one per
      such anchor, in document order, duplicates kept, and anchors outside
      `#datatable` or without a non-empty `href` skipped. */
  lemma CollectLinksExact(anchors: seq<Anchor>)
    ensures var links := CollectLinks(anchors);
      var idx := Kept(anchors, IsResultLink);
      && |idx| == |links|
      && (forall k, l :: 0 <= k < l < |idx| ==> idx[k] < idx[l])
      && (forall k :: 0 <= k < |idx| ==> idx[k] < |anchors| && anchors[idx[k]].href == Some(links[k]))
      && (forall i :: 0 <= i < |anchors| ==> (IsResultLink(anchors[i]) <==> i in idx))
  {
    var idx := Kept(anchors, IsResultLink);
    forall i | 0 <= i < |anchors| && i in idx ensures IsResultLink(anchors[i]) {
      var k :| 0 <= k < |idx| && idx[k] == i;
    }
  }

  /** A listing without result anchors gives no links, not an error. */
  lemma CollectLinksNone(anchors: seq<Anchor>)
    requires forall i :: 0 <= i < |anchors| ==> !IsResultLink(anchors[i])
    ensures CollectLinks(anchors) == []
  {
    FilterDropsAll(anchors, IsResultLink);
  }

  // ---------------------------------------------------------------------------
  // Detail parsing
  // ---------------------------------------------------------------------------

  /** A row with at least three cells whose trimmed first cell is `key`. */
  predicate SetsKey(row: seq<string>, key: string) {
    |row| >= 3 && Trim(row[0]) == key
  }

  /** The record of a detail page: each row with at least three cells assigns
      its trimmed third cell to its trimmed first cell, rows taken in order. */
  function ParseDetail(rows: seq<seq<string>>): (r: Record)
    ensures forall i :: 0 <= i < |rows| && |rows[i]| >= 3 ==> Trim(rows[i][0]) in r
    decreases |rows|
  {
    if rows == [] then map[]
    else
      var before := ParseDetail(rows[..|rows| - 1]);
      var row := rows[|rows| - 1];
      if |row| >= 3 then before[Trim(row[0]) := Trim(row[2])] else before
  }

  /** A label is in the record exactly when some row of three or more cells
      carries it. */
  lemma {:induction false} ParseDetailKeys(rows: seq<seq<string>>, key: string)
    ensures key in ParseDetail(rows) <==> exists i :: 0 <= i < |rows| && SetsKey(rows[i], key)
    decreases |rows|
  {
    if rows != [] {
      var init := rows[..|rows| - 1];
      ParseDetailKeys(init, key);
      if exists i :: 0 <= i < |rows| && SetsKey(rows[i], key) {
        var i :| 0 <= i < |rows| && SetsKey(rows[i], key);
        if i < |init| {
          assert SetsKey(init[i], key);
        }
      }
      if exists i :: 0 <= i < |init| && SetsKey(init[i], key) {
        var i :| 0 <= i < |init| && SetsKey(init[i], key);
        assert SetsKey(rows[i], key);
      }
    }
  }

  /** The value of a label is the third cell of the LAST row of three or more
      cells that carries it: a later row overwrites an earlier one, and the
      second cell and any cells past the third never matter. */
  lemma {:induction false} ParseDetailLastWins(rows: seq<seq<string>>, key: string, i: int)
    requires 0 <= i < |rows| && SetsKey(rows[i], key)
    requires forall j :: i < j < |rows| ==> !SetsKey(rows[j], key)
    ensures key in ParseDetail(rows) && ParseDetail(rows)[key] == Trim(rows[i][2])
    decreases |rows|
  {
    var init := rows[..|rows| - 1];
    if i < |rows| - 1 {
      assert init[i] == rows[i];
      forall j | i < j < |init| ensures !SetsKey(init[j], key) {
        assert init[j] == rows[j];
      }
      ParseDetailLastWins(init, key, i);
      assert !SetsKey(rows[|rows| - 1], key);
    }
  }

  /** Parsing a page in two parts and merging, the later part winning on shared
      labels, is parsing it whole. */
  lemma {:induction false} ParseDetailAppend(a: seq<seq<string>>, b: seq<seq<string>>)
    ensures ParseDetail(a + b) == ParseDetail(a) + ParseDetail(b)
    decreases |b|
  {
    if b == [] {
      assert a + b == a;
    } else {
      var b' := b[..|b| - 1];
      var row := b[|b| - 1];
      assert (a + b)[..|a + b| - 1] == a + b';
      assert (a + b)[|a + b| - 1] == row;
      ParseDetailAppend(a, b');
      var ma, mb' := ParseDetail(a), ParseDetail(b');
      assert ParseDetail(a + b') == ma + mb';
      if |row| >= 3 {
        var k, v := Trim(row[0]), Trim(row[2]);
        assert ParseDetail(a + b) == ParseDetail(a + b')[k := v];
        assert ParseDetail(b) == mb'[k := v];
        assert (ma + mb')[k := v] == ma + mb'[k := v];
      } else {
        assert ParseDetail(a + b) == ParseDetail(a + b');
        assert ParseDetail(b) == mb';
      }
    }
  }

  /** A row with fewer than three cells adds nothing to the record. */
  lemma ParseDetailShortRow(rows: seq<seq<string>>, row: seq<string>)
    requires |row| < 3
    ensures ParseDetail(rows + [row]) == ParseDetail(rows)
  {
    assert (rows + [row])[..|rows|] == rows;
  }

  // ---------------------------------------------------------------------------
  // The search run
  // ---------------------------------------------------------------------------

  /** Every request of the run is sent with the session state the previous
      exchange left behind, starting from `start`, and every recorded response
      is the portal's answer to that request in that state. */
  ghost predicate Threaded<S>(portal: Portal<S>, start: S, trace: seq<Exchange<S>>) {
    && (|trace| > 0 ==> trace[0].session == start)
    && (forall i :: 0 <= i < |trace| ==> trace[i].response == portal(trace[i].session, trace[i].request).1)
    && (forall i :: 1 <= i < |trace| ==> trace[i].session == portal(trace[i - 1].session, trace[i - 1].request).0)
  }

  /** The warm-up exchange succeeded and its page carried a token. */
  ghost predicate HasToken<S>(trace: seq<Exchange<S>>) {
    |trace| > 0 && trace[0].response.Ok? && ExtractToken(trace[0].response.value).Ok?
  }

  /** The search POST was answered with a listing page. */
  ghost predicate HasListing<S>(trace: seq<Exchange<S>>) {
    |trace| > 1 && trace[1].response.Ok?
  }

  /** The links of the listing page of the run. */
  ghost function ListedLinks<S>(trace: seq<Exchange<S>>): seq<string>
    requires HasListing(trace)
  {
    CollectLinks(trace[1].response.value.anchors)
  }

  /** Two threaded traces join into one when the second starts from the
      session state the first leaves behind. */
  lemma ThreadedAppend<S>(portal: Portal<S>, start: S, t1: seq<Exchange<S>>, t2: seq<Exchange<S>>)
    requires Threaded(portal, start, t1) && t1 != []
    requires Threaded(portal, portal(t1[|t1| - 1].session, t1[|t1| - 1].request).0, t2)
    ensures Threaded(portal, start, t1 + t2)
  {
    var t := t1 + t2;
    forall i | 1 <= i < |t| ensures t[i].session == portal(t[i - 1].session, t[i - 1].request).0 {
      if i > |t1| {
        assert t[i] == t2[i - |t1|] && t[i - 1] == t2[i - 1 - |t1|];
      }
    }
  }

  /** The loop over the listed links: each link is fetched with the current
      session state and its page parsed into one record, in order, until a
      fetch fails.  Returns what was sent and received, and the outcome. */
  method FetchDetails<S>(portal: Portal<S>, start: S, links: seq<string>)
    returns (trace: seq<Exchange<S>>, outcome: Outcome)
    ensures Threaded(portal, start, trace)
    ensures |trace| <= |links|
    ensures forall i :: 0 <= i < |trace| ==> trace[i].request == Get(links[i])
    ensures forall i :: 0 <= i < |trace| - 1 ==> trace[i].response.Ok?
    ensures outcome.Failed? ==> trace != [] && trace[|trace| - 1].response == Err(outcome.message)
    ensures outcome.Records? ==>
      && |trace| == |links|
      && (forall i :: 0 <= i < |trace| ==> trace[i].response.Ok?)
      && |outcome.records| == |links|
      && forall k :: 0 <= k < |links| ==> outcome.records[k] == ParseDetail(trace[k].response.value.rows)
    ensures |trace| == |links| && (trace == [] || trace[|trace| - 1].response.Ok?) ==> outcome.Records?
  {
    trace := [];
    var results: seq<Record> := [];
    var session := start;
    var i := 0;
    while i < |links|
      invariant 0 <= i <= |links|
      invariant |trace| == i && |results| == i
      invariant Threaded(portal, start, trace)
      invariant session == if trace == [] then start
        else portal(trace[|trace| - 1].session, trace[|trace| - 1].request).0
      invariant forall j :: 0 <= j < i ==> trace[j].request == Get(links[j]) && trace[j].response.Ok?
      invariant forall k :: 0 <= k < i ==> results[k] == ParseDetail(trace[k].response.value.rows)
    {
      var request := Get(links[i]);
      var (next, detail) := portal(session, request);
      trace := trace + [Exchange(session, request, detail)];
      if detail.Err? {
        return trace, Failed(detail.error);
      }
      results := results + [ParseDetail(detail.value.rows)];
      session := next;
      i := i + 1;
    }
    outcome := Records(results);
  }

  /** `search(keyword, pilihan)` against `portal`, starting from the fresh
      session state `start`.  Returns what was sent and received, in order, and
      the outcome. */
  method Search<S>(portal: Portal<S>, start: S, keyword: string, category: int)
    returns (trace: seq<Exchange<S>>, outcome: Outcome)
    // one session, threaded through every request
    ensures Threaded(portal, start, trace)
    // warm-up: GET / first; a failed warm-up or a missing token ends the run there
    ensures |trace| >= 1 && trace[0].request == Get(RootPath)
    ensures trace[0].response.Err? ==> |trace| == 1 && outcome == Failed(trace[0].response.error)
    ensures trace[0].response.Ok? && ExtractToken(trace[0].response.value).Err? ==>
      |trace| == 1 && outcome == Failed(TokenMissing)
    // search: with a token, the POST carries it with the keyword and category
    ensures HasToken(trace) ==>
      && |trace| >= 2
      && trace[1].request == Post(SearchPath, BuildPayload(ExtractToken(trace[0].response.value).value, keyword, category))
    ensures |trace| >= 2 && trace[1].response.Err? ==> |trace| == 2 && outcome == Failed(trace[1].response.error)
    // details: one GET per listed link, in link order, stopping at the first failure
    ensures HasListing(trace) ==> |trace| <= 2 + |ListedLinks(trace)|
    ensures HasListing(trace) ==> forall i :: 2 <= i < |trace| ==> trace[i].request == Get(ListedLinks(trace)[i - 2])
    ensures forall i :: 0 <= i < |trace| - 1 ==> trace[i].response.Ok?
    // all or nothing: a failure reports only the failing step's message
    ensures outcome.Failed? ==>
      || (trace[|trace| - 1].response.Err? && outcome.message == trace[|trace| - 1].response.error)
      || (|trace| == 1 && outcome.message == TokenMissing)
    // success: every detail page fetched, one record per link, in link order
    ensures outcome.Records? ==>
      && HasToken(trace) && HasListing(trace)
      && |trace| == 2 + |ListedLinks(trace)|
      && trace[|trace| - 1].response.Ok?
      && |outcome.records| == |ListedLinks(trace)|
      && forall k :: 0 <= k < |outcome.records| ==>
           outcome.records[k] == ParseDetail(trace[k + 2].response.value.rows)
    // a listing without links is an empty success
    ensures HasListing(trace) && ListedLinks(trace) == [] ==> outcome == Records([])
    // a run stops only at a failure or when every link is fetched
    ensures HasListing(trace) && |trace| == 2 + |ListedLinks(trace)| && trace[|trace| - 1].response.Ok? ==>
      outcome.Records?
  {
    var warmupRequest := Get(RootPath);
    var (afterWarmup, warmup) := portal(start, warmupRequest);
    trace := [Exchange(start, warmupRequest, warmup)];
    if warmup.Err? {
      return trace, Failed(warmup.error);
    }
    var token := ExtractToken(warmup.value);
    if token.Err? {
      return trace, Failed(token.error);
    }

    var searchRequest := Post(SearchPath, BuildPayload(token.value, keyword, category));
    var (afterSearch, listing) := portal(afterWarmup, searchRequest);
    var head := trace + [Exchange(afterWarmup, searchRequest, listing)];
    trace := head;
    if listing.Err? {
      return trace, Failed(listing.error);
    }

    var links := CollectLinks(listing.value.anchors);
    var details;
    details, outcome := FetchDetails(portal, afterSearch, links);
    ThreadedAppend(portal, start, head, details);
    trace := head + details;
    assert HasToken(trace) && HasListing(trace) && ListedLinks(trace) == links;
    assert forall i :: 2 <= i < |trace| ==> trace[i] == details[i - 2];
  }
}
