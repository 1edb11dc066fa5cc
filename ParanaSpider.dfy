/**
 * The decision logic of the spider for the missing-children listing of
 * Paraná: the page requests it schedules, and how one announcement on a
 * listing page becomes a `Case`.
 *
 * The listing page, the field parsers, the city lookup and URL joining are
 * parameters: a page is a sequence of entries, the parser registry a map from
 * field name to a function of the entry's text lines, the city lookup a
 * function and a state abbreviation.
 */
module ParanaSpider {
  import opened Wrappers
  import opened PyText
  import opened PyDate

  const BaseUrl := "http://www.desaparecidosdobrasil.org/criancas-desaparecidas/parana/"
  const OffsetQuery := "?offset="

  // ---------------------------------------------------------------------------
  // Requests
  // ---------------------------------------------------------------------------

  /** A request for a listing page; `offset` is what its meta carries. */
  datatype Request = Request(url: string, offset: int)

  /** `request_offset(offset)`. */
  function RequestOffset(offset: int): Request
  {
    Request(BaseUrl + OffsetQuery + IntToString(offset), offset)
  }

  /** Reads the offset back out of a listing-page URL. */
  function OffsetOfUrl(url: string): Option<int>
  {
    var prefix := BaseUrl + OffsetQuery;
    if |url| >= |prefix| && url[..|prefix|] == prefix then ReadDecimal(url[|prefix|..]) else None
  }

  /** The URL of `request_offset(n)` is the base URL and `?offset=n`, and its meta carries `n`. */
  lemma RequestOffsetRoundTrip(offset: int)
    ensures RequestOffset(offset).offset == offset
    ensures OffsetOfUrl(RequestOffset(offset).url) == Some(offset)
  {
    var prefix := BaseUrl + OffsetQuery;
    var url := RequestOffset(offset).url;
    assert url[..|prefix|] == prefix && url[|prefix|..] == IntToString(offset);
    ReadDecimalOfIntToString(offset);
  }

  /** Different offsets give different URLs, so deduplicating by URL is deduplicating by offset. */
  lemma RequestUrlInjective(a: int, b: int)
    requires RequestOffset(a).url == RequestOffset(b).url
    ensures a == b
  {
    RequestOffsetRoundTrip(a);
    RequestOffsetRoundTrip(b);
  }

  /** `start_requests()`: the walk starts with one request, for offset 0. */
  function StartRequests(): (rs: seq<Request>)
    ensures |rs| == 1 && rs[0].offset == 0 && OffsetOfUrl(rs[0].url) == Some(0)
    ensures rs[0].url == BaseUrl + "?offset=0"
  {
    RequestOffsetRoundTrip(0);
    [RequestOffset(0)]
  }

  // ---------------------------------------------------------------------------
  // Pages, entries and field values
  // ---------------------------------------------------------------------------

  /**
   * One `div.announcement`: the `href` of its `h4 a` link (absent when the
   * link or the attribute is missing), the link's first text node, and all
   * its text nodes in document order.
   */
  datatype Entry = Entry(href: Option<string>, name: Option<string>, texts: seq<string>)

  /** A fetched listing page: the offset in its meta, if any, and its announcements. */
  datatype Response = Response(metaOffset: Option<int>, entries: seq<Entry>)

  /** A parsed field value; the parsers return text or integers. */
  datatype Value = Text(s: string) | Number(n: int)

  /** Python's `str(v)`. */
  function Str(v: Value): string {
    match v
    case Text(s) => s
    case Number(n) => IntToString(n)
  }

  /** Python truthiness of a field value (`None`, `""` and `0` are false). */
  predicate Truthy(v: Option<Value>) {
    match v
    case None => false
    case Some(Text(s)) => s != ""
    case Some(Number(n)) => n != 0
  }

  /** The `kwargs` dict: field name to parsed value or `None`. */
  type FieldMap = map<string, Option<Value>>

  /** A field parser: the entry's normalised lines to a value or `None`. */
  type Parser = seq<string> -> Option<Value>

  /** The `PARSERS` registry. */
  type Registry = map<string, Parser>

  const AgeKey := "age_at_occurrence"
  const DobKey := "dob"
  const MissingSinceKey := "missing_since"
  const LastSeenKey := "last_seen_at"

  /** The keyword arguments `Case(...)` receives besides `**kwargs`. */
  const CaseKeywords: set<string> := {"name", "url", "full_text"}

  /** The IBGE client: the state's abbreviation and its city search (`nome` of the match). */
  datatype IbgeClient = IbgeClient(sigla: string, searchCity: Value -> Option<string>)

  /** The item a named entry becomes. */
  datatype Case = Case(name: string, url: string, fullText: string, fields: FieldMap)

  /** What `parse` yields. */
  datatype Output = Req(request: Request) | Emit(item: Case)

  /** Why `parse` stopped early: the exception it raised. */
  datatype SpiderError =
    | MissingHref                                // KeyError from title.attrib["href"]
    | MissingKey(key: string)                    // KeyError from kwargs[key]
    | BadDate(key: string, reason: DateError)    // ValueError from strptime
    | DuplicateKeyword                           // TypeError from Case(name=..., **kwargs)

  /**
   * What a generator produced: everything it yielded, and the exception that
   * ended it, if one did.
   */
  datatype ParseResult = ParseResult(outputs: seq<Output>, error: Option<SpiderError>)

  // ---------------------------------------------------------------------------
  // Extraction of one entry
  // ---------------------------------------------------------------------------

  /** The offset of the page: the one its request carried, and 0 when it carried none. */
  function PageOffset(resp: Response): int {
    resp.metaOffset.GetOr(0)
  }

  /** The link has a text, and it is not the empty string. */
  predicate HasName(e: Entry) {
    e.name.Some? && e.name.value != ""
  }

  /** The text lines, each stripped of surrounding whitespace, without those that strip to nothing, in order. */
  function Contents(texts: seq<string>): (lines: seq<string>)
    ensures |lines| <= |texts|
    ensures forall i :: 0 <= i < |lines| ==> lines[i] != "" && Stripped(lines[i])
  {
    if texts == [] then [] else KeptLine(texts[0]) + Contents(texts[1..])
  }

  /** The stripped line, unless stripping leaves it empty. */
  function KeptLine(text: string): (kept: seq<string>)
    ensures |kept| <= 1
    ensures forall i :: 0 <= i < |kept| ==> kept[i] != "" && Stripped(kept[i])
  {
    var line := Strip(text);
    if line == "" then [] else [line]
  }

  /** One entry per registry parser, holding that parser's result on the lines. */
  function RunParsers(reg: Registry, contents: seq<string>): (kw: FieldMap)
    ensures kw.Keys == reg.Keys
    ensures forall k :: k in reg ==> kw[k] == reg[k](contents)
  {
    map k | k in reg :: reg[k](contents)
  }

  /** Only the field `key` may differ between the two maps, which share their keys. */
  predicate OnlyChanges(kw: FieldMap, kw': FieldMap, key: string) {
    kw'.Keys == kw.Keys && forall k :: k in kw && k != key ==> kw'[k] == kw[k]
  }

  /**
   * The age fallback: a missing `age_at_occurrence` becomes the year of
   * `missing_since` minus the year of `dob` when both dates are present.
   * The lookups are made in the order of the condition, which stops at the
   * first false conjunct.
   */
  function InferAge(kw: FieldMap): (r: Result<FieldMap, SpiderError>)
    ensures r.Success? ==> OnlyChanges(kw, r.value, AgeKey)
    ensures r.Success? && r.value != kw ==> kw[AgeKey].None? && r.value[AgeKey].Some?
  {
    if AgeKey !in kw then Failure(MissingKey(AgeKey))
    else if kw[AgeKey].Some? then Success(kw)
    else if DobKey !in kw then Failure(MissingKey(DobKey))
    else if kw[DobKey].None? then Success(kw)
    else if MissingSinceKey !in kw then Failure(MissingKey(MissingSinceKey))
    else if kw[MissingSinceKey].None? then Success(kw)
    else
      match ParseDate(Str(kw[DobKey].value))
      case Failure(e) => Failure(BadDate(DobKey, e))
      case Success(dob) =>
        match ParseDate(Str(kw[MissingSinceKey].value))
        case Failure(e) => Failure(BadDate(MissingSinceKey, e))
        case Success(since) => Success(kw[AgeKey := Some(Number(since.year - dob.year))])
  }

  /** What `clean_city(kwargs)` returns. */
  function CleanedCity(kw: FieldMap, client: IbgeClient): (kw': FieldMap)
    ensures OnlyChanges(kw, kw', LastSeenKey)
  {
    if LastSeenKey in kw && Truthy(kw[LastSeenKey]) then
      match client.searchCity(kw[LastSeenKey].value)
      case Some(nome) => kw[LastSeenKey := Some(Text(nome + " - " + client.sigla))]
      case None => kw
    else kw
  }

  /** `clean_city(kwargs)`: rewrites the last-seen place when the lookup finds its city. */
  method CleanCity(kwargs: FieldMap, client: IbgeClient) returns (kwargs': FieldMap)
    ensures kwargs' == CleanedCity(kwargs, client)
  {
    kwargs' := kwargs;
    if LastSeenKey in kwargs' && Truthy(kwargs'[LastSeenKey]) {
      var sigla := client.sigla;
      var city := client.searchCity(kwargs'[LastSeenKey].value);
      if city.Some? {
        var nameCity := city.value;
        kwargs' := kwargs'[LastSeenKey := Some(Text(nameCity + " - " + sigla))];
      }
    }
  }

  /**
   * The `Case` a named entry becomes, or the exception raised while building
   * it: fields parsed from the normalised lines, the age fallback, the city
   * cleanup, then the item itself.
   */
  function CaseOf(name: string, href: string, texts: seq<string>, reg: Registry, client: IbgeClient,
                  urljoin: string -> string): Result<Case, SpiderError>
  {
    var contents := Contents(texts);
    match InferAge(RunParsers(reg, contents))
    case Failure(err) => Failure(err)
    case Success(kw) =>
      var fields := CleanedCity(kw, client);
      if fields.Keys !! CaseKeywords then Success(Case(name, urljoin(href), Join(contents, "\n"), fields))
      else Failure(DuplicateKeyword)
  }

  /** The body of the loop in `parse` from the text lines on, for an entry with a name. */
  method ExtractCase(name: string, href: string, texts: seq<string>, reg: Registry, client: IbgeClient,
                     urljoin: string -> string) returns (r: Result<Case, SpiderError>)
    ensures r == CaseOf(name, href, texts, reg, client, urljoin)
  {
    // normalise the text lines, then run every field parser over them
    var contents := Contents(texts);
    var kwargs := RunParsers(reg, contents);

    ghost var aged := InferAge(kwargs);
    if AgeKey !in kwargs {
      return Failure(MissingKey(AgeKey));
    }
    if kwargs[AgeKey].None? {
      if DobKey !in kwargs {
        return Failure(MissingKey(DobKey));
      }
      if kwargs[DobKey].Some? {
        if MissingSinceKey !in kwargs {
          return Failure(MissingKey(MissingSinceKey));
        }
        if kwargs[MissingSinceKey].Some? {
          var dob := ParseDate(Str(kwargs[DobKey].value));
          if dob.Failure? {
            return Failure(BadDate(DobKey, dob.error));
          }
          var missingSince := ParseDate(Str(kwargs[MissingSinceKey].value));
          if missingSince.Failure? {
            return Failure(BadDate(MissingSinceKey, missingSince.error));
          }
          kwargs := kwargs[AgeKey := Some(Number(missingSince.value.year - dob.value.year))];
          assert aged == Success(kwargs);
        } else {
          assert aged == Success(kwargs);
        }
      } else {
        assert aged == Success(kwargs);
      }
    } else {
      assert aged == Success(kwargs);
    }

    kwargs := CleanCity(kwargs, client);

    if !(kwargs.Keys !! CaseKeywords) {
      return Failure(DuplicateKeyword);
    }
    r := Success(Case(name, urljoin(href), Join(contents, "\n"), kwargs));
  }

  /** What one pass of the loop in `parse` yields for entry `e` of a page at `offset`. */
  function EntryOutputs(e: Entry, offset: int, reg: Registry, client: IbgeClient,
                        urljoin: string -> string): ParseResult
  {
    var req := Req(RequestOffset(offset + 1));
    if e.href.None? then ParseResult([req], Some(MissingHref))
    else if !HasName(e) then ParseResult([req], None)
    else
      match CaseOf(e.name.value, e.href.value, e.texts, reg, client, urljoin)
      case Failure(err) => ParseResult([req], Some(err))
      case Success(c) => ParseResult([req, Emit(c)], None)
  }

  /** What the loop in `parse` yields over `entries`, up to the first exception. */
  function ParseEntries(entries: seq<Entry>, offset: int, reg: Registry, client: IbgeClient,
                        urljoin: string -> string): ParseResult
  {
    if entries == [] then ParseResult([], None)
    else
      var first := EntryOutputs(entries[0], offset, reg, client, urljoin);
      if first.error.Some? then first
      else
        var rest := ParseEntries(entries[1..], offset, reg, client, urljoin);
        ParseResult(first.outputs + rest.outputs, rest.error)
  }

  /** Unfolds `ParseEntries` on the entries from `i` on. */
  lemma ParseEntriesStep(entries: seq<Entry>, i: nat, offset: int, reg: Registry, client: IbgeClient,
                         urljoin: string -> string)
    requires i < |entries|
    ensures var step := EntryOutputs(entries[i], offset, reg, client, urljoin);
            var later := ParseEntries(entries[i + 1..], offset, reg, client, urljoin);
            ParseEntries(entries[i..], offset, reg, client, urljoin)
              == if step.error.Some? then step else ParseResult(step.outputs + later.outputs, later.error)
  {
    assert entries[i..][0] == entries[i] && entries[i..][1..] == entries[i + 1..];
  }

  lemma SeqAssoc<T>(a: seq<T>, b: seq<T>, c: seq<T>)
    ensures a + (b + c) == a + b + c
  {
  }

  /**
   * One pass of the loop in `parse`: the request for the next offset, then,
   * when the announcement has a link and a name, its `Case`.
   */
  method ParseAnnouncement(entry: Entry, offset: int, reg: Registry, client: IbgeClient,
                           urljoin: string -> string)
    returns (outputs: seq<Output>, error: Option<SpiderError>)
    ensures ParseResult(outputs, error) == EntryOutputs(entry, offset, reg, client, urljoin)
  {
    // a page with an announcement may have a successor: schedule it first
    outputs := [Req(RequestOffset(offset + 1))];
    error := None;

    // the link must carry an href; an entry without a link text is skipped
    if entry.href.None? {
      error := Some(MissingHref);
      return;
    }
    var href := entry.href.value;
    var name := entry.name;
    if name.None? || name.value == "" {
      return;
    }

    var item := ExtractCase(name.value, href, entry.texts, reg, client, urljoin);
    if item.Failure? {
      error := Some(item.error);
      return;
    }
    outputs := outputs + [Emit(item.value)];
  }

  /**
   * `parse(response)`: for every announcement, first a request for the next
   * offset, then, for a named entry, its `Case`; an exception ends the page.
   */
  method Parse(resp: Response, reg: Registry, client: IbgeClient, urljoin: string -> string)
    returns (outputs: seq<Output>, error: Option<SpiderError>)
    ensures ParseResult(outputs, error) == ParseEntries(resp.entries, PageOffset(resp), reg, client, urljoin)
  {
    ghost var whole := ParseEntries(resp.entries, PageOffset(resp), reg, client, urljoin);
    outputs, error := [], None;
    var i := 0;
    while i < |resp.entries|
      invariant 0 <= i <= |resp.entries|
      invariant whole.outputs == outputs + ParseEntries(resp.entries[i..], PageOffset(resp), reg, client, urljoin).outputs
      invariant whole.error == ParseEntries(resp.entries[i..], PageOffset(resp), reg, client, urljoin).error
    {
      ParseEntriesStep(resp.entries, i, PageOffset(resp), reg, client, urljoin);
      ghost var later := ParseEntries(resp.entries[i + 1..], PageOffset(resp), reg, client, urljoin);
      ghost var before := outputs;

      var offset := resp.metaOffset.GetOr(0);
      var yielded, raised := ParseAnnouncement(resp.entries[i], offset, reg, client, urljoin);
      outputs := outputs + yielded;
      if raised.Some? {
        error := raised;
        return;
      }
      SeqAssoc(before, yielded, later.outputs);
      i := i + 1;
    }
    assert resp.entries[i..] == [];
  }

  // ---------------------------------------------------------------------------
  // Line normalisation
  // ---------------------------------------------------------------------------

  /** Normalisation works line by line: it keeps the order of the input. */
  lemma {:induction false} ContentsConcat(a: seq<string>, b: seq<string>)
    ensures Contents(a + b) == Contents(a) + Contents(b)
  {
    if a == [] {
      assert a + b == b;
    } else {
      assert (a + b)[0] == a[0] && (a + b)[1..] == a[1..] + b;
      calc {
        Contents(a + b);
        KeptLine(a[0]) + Contents(a[1..] + b);
        { ContentsConcat(a[1..], b); }
        KeptLine(a[0]) + (Contents(a[1..]) + Contents(b));
        { SeqAssoc(KeptLine(a[0]), Contents(a[1..]), Contents(b)); }
        Contents(a) + Contents(b);
      }
    }
  }

  /** A line is kept exactly when it is the non-empty stripped form of some input line. */
  lemma {:induction false} ContentsMembers(texts: seq<string>, line: string)
    ensures line in Contents(texts) <==> line != "" && exists j :: 0 <= j < |texts| && Strip(texts[j]) == line
  {
    if texts != [] {
      ContentsMembers(texts[1..], line);
      if line in Contents(texts[1..]) {
        var j :| 0 <= j < |texts[1..]| && Strip(texts[1..][j]) == line;
        assert Strip(texts[j + 1]) == line;
      }
      if line != "" && exists j :: 0 <= j < |texts| && Strip(texts[j]) == line {
        var j :| 0 <= j < |texts| && Strip(texts[j]) == line;
        if j > 0 { assert Strip(texts[1..][j - 1]) == line; }
      }
    }
  }

  /** Lines that are already non-empty and stripped come through unchanged. */
  lemma {:induction false} ContentsOfNormalised(lines: seq<string>)
    requires forall i :: 0 <= i < |lines| ==> lines[i] != "" && Stripped(lines[i])
    ensures Contents(lines) == lines
  {
    if lines != [] {
      StripStripped(lines[0]);
      ContentsOfNormalised(lines[1..]);
      assert [lines[0]] + lines[1..] == lines;
    }
  }

  /** Normalising twice is normalising once. */
  lemma ContentsIdempotent(texts: seq<string>)
    ensures Contents(Contents(texts)) == Contents(texts)
  {
    ContentsOfNormalised(Contents(texts));
  }

  // ---------------------------------------------------------------------------
  // The age fallback and the city cleanup
  // ---------------------------------------------------------------------------

  /** A present age is never overwritten, whatever the dates hold. */
  lemma AgeKeptWhenPresent(kw: FieldMap)
    requires AgeKey in kw && kw[AgeKey].Some?
    ensures InferAge(kw) == Success(kw)
  {
  }

  /** Without both dates nothing changes; `missing_since` is not looked up when `dob` is `None`. */
  lemma AgeUnchangedWithoutDates(kw: FieldMap)
    requires AgeKey in kw && kw[AgeKey].None? && DobKey in kw
    requires kw[DobKey].None? || (MissingSinceKey in kw && kw[MissingSinceKey].None?)
    ensures InferAge(kw) == Success(kw)
  {
  }

  /** With both dates readable, the age is the difference of their years and nothing else changes. */
  lemma AgeFromYears(kw: FieldMap, dob: Date, since: Date)
    requires AgeKey in kw && kw[AgeKey].None?
    requires DobKey in kw && kw[DobKey].Some? && ParseDate(Str(kw[DobKey].value)) == Success(dob)
    requires MissingSinceKey in kw && kw[MissingSinceKey].Some?
    requires ParseDate(Str(kw[MissingSinceKey].value)) == Success(since)
    ensures InferAge(kw) == Success(kw[AgeKey := Some(Number(since.year - dob.year))])
  {
  }

  /** A date that does not parse is an error for the entry, not a skipped age. */
  lemma AgeBadDate(kw: FieldMap)
    requires AgeKey in kw && kw[AgeKey].None?
    requires DobKey in kw && kw[DobKey].Some? && MissingSinceKey in kw && kw[MissingSinceKey].Some?
    requires ParseDate(Str(kw[DobKey].value)).Failure? || ParseDate(Str(kw[MissingSinceKey].value)).Failure?
    ensures InferAge(kw).Failure? && InferAge(kw).error.BadDate?
  {
  }

  /** A registry without an `age_at_occurrence` parser makes the lookup raise. */
  lemma AgeKeyRequired(kw: FieldMap)
    requires AgeKey !in kw
    ensures InferAge(kw) == Failure(MissingKey(AgeKey))
  {
  }

  /**
   * With no age, the date keys are looked up in the order of the condition:
   * a missing `dob` raises first, then a missing `missing_since` once `dob` holds a value.
   */
  lemma DateKeysRequired(kw: FieldMap)
    requires AgeKey in kw && kw[AgeKey].None?
    ensures DobKey !in kw ==> InferAge(kw) == Failure(MissingKey(DobKey))
    ensures DobKey in kw && kw[DobKey].Some? && MissingSinceKey !in kw
            ==> InferAge(kw) == Failure(MissingKey(MissingSinceKey))
  {
  }

  /** Month and day play no part: 2000-05-01 to 2010-01-01 gives 10. */
  lemma AgeExample(kw: FieldMap)
    requires AgeKey in kw && kw[AgeKey].None?
    requires DobKey in kw && kw[DobKey] == Some(Text("2000-05-01"))
    requires MissingSinceKey in kw && kw[MissingSinceKey] == Some(Text("2010-01-01"))
    ensures InferAge(kw) == Success(kw[AgeKey := Some(Number(10))])
  {
    ParseDateExamples();
    AgeFromYears(kw, Date(2000, 5, 1), Date(2010, 1, 1));
  }

  /** A missing or falsy `last_seen_at` is left alone. */
  lemma CleanCityFalsy(kw: FieldMap, client: IbgeClient)
    requires !(LastSeenKey in kw && Truthy(kw[LastSeenKey]))
    ensures CleanedCity(kw, client) == kw
  {
  }

  /** A found city replaces the place with `nome - sigla`; nothing else changes. */
  lemma CleanCityFound(kw: FieldMap, client: IbgeClient, nome: string)
    requires LastSeenKey in kw && Truthy(kw[LastSeenKey])
    requires client.searchCity(kw[LastSeenKey].value) == Some(nome)
    ensures CleanedCity(kw, client) == kw[LastSeenKey := Some(Text(nome + " - " + client.sigla))]
  {
  }

  /** When the lookup finds nothing, the free text stays as it was. */
  lemma CleanCityNotFound(kw: FieldMap, client: IbgeClient)
    requires LastSeenKey in kw && Truthy(kw[LastSeenKey])
    requires client.searchCity(kw[LastSeenKey].value).None?
    ensures CleanedCity(kw, client) == kw
  {
  }

  /** "Curitiba" found in the state "PR" becomes "Curitiba - PR". */
  lemma CleanCityExample(kw: FieldMap)
    requires LastSeenKey in kw && kw[LastSeenKey] == Some(Text("Curitiba"))
    ensures var client := IbgeClient("PR", (v: Value) => if v == Text("Curitiba") then Some("Curitiba") else None);
            CleanedCity(kw, client)[LastSeenKey] == Some(Text("Curitiba - PR"))
  {
    var client := IbgeClient("PR", (v: Value) => if v == Text("Curitiba") then Some("Curitiba") else None);
    assert client.searchCity(Text("Curitiba")) == Some("Curitiba");
    assert "Curitiba" + " - " + "PR" == "Curitiba - PR";
    CleanCityFound(kw, client, "Curitiba");
  }

  // ---------------------------------------------------------------------------
  // One entry
  // ---------------------------------------------------------------------------

  /**
   * The fields of a built `Case`: one per registry entry, each as its parser
   * returned it except the age (filled only when absent) and the last-seen
   * place; the full text is the normalised lines joined by newlines, and
   * splits back into them when no line holds a newline.
   */
  lemma CaseOfFields(name: string, href: string, texts: seq<string>, reg: Registry, client: IbgeClient,
                     urljoin: string -> string)
    ensures var r := CaseOf(name, href, texts, reg, client, urljoin);
            var contents := Contents(texts);
            r.Success? ==> var c := r.value;
            && c.name == name && c.url == urljoin(href) && c.fullText == Join(contents, "\n")
            && c.fields.Keys == reg.Keys && AgeKey in reg
            && (forall k :: k in reg && k != AgeKey && k != LastSeenKey ==> c.fields[k] == reg[k](contents))
            && (reg[AgeKey](contents).Some? ==> c.fields[AgeKey] == reg[AgeKey](contents))
            && (contents != [] && (forall i :: 0 <= i < |contents| ==> '\n' !in contents[i])
                ==> Split(c.fullText, '\n') == contents)
  {
    var contents := Contents(texts);
    if contents != [] && (forall i :: 0 <= i < |contents| ==> '\n' !in contents[i]) {
      SplitJoin(contents, '\n');
    }
  }

  /**
   * Every announcement first yields the request for the next offset; an
   * unnamed one yields nothing else, a named one its `Case` unless building
   * it raised.
   */
  lemma EntryOutcome(e: Entry, offset: int, reg: Registry, client: IbgeClient, urljoin: string -> string)
    ensures var r := EntryOutputs(e, offset, reg, client, urljoin);
            && 1 <= |r.outputs| <= 2 && r.outputs[0] == Req(RequestOffset(offset + 1))
            && (e.href.None? ==> r == ParseResult([Req(RequestOffset(offset + 1))], Some(MissingHref)))
            && (e.href.Some? && !HasName(e) ==> r == ParseResult([Req(RequestOffset(offset + 1))], None))
            && (|r.outputs| == 2 <==> e.href.Some? && HasName(e) && r.error.None?)
            && (|r.outputs| == 2 ==> r.outputs[1] == Emit(CaseOf(e.name.value, e.href.value, e.texts, reg, client, urljoin).value))
            && (|r.outputs| == 2 ==> r.outputs[1].item.name == e.name.value)
  {
    if e.href.Some? && HasName(e) {
      var r := CaseOf(e.name.value, e.href.value, e.texts, reg, client, urljoin);
      if r.Success? {
        CaseOfFields(e.name.value, e.href.value, e.texts, reg, client, urljoin);
      }
    }
  }

  // ---------------------------------------------------------------------------
  // A whole page
  // ---------------------------------------------------------------------------

  /** The requests among the outputs, in order. */
  function Requests(outs: seq<Output>): seq<Request>
  {
    if outs == [] then []
    else (if outs[0].Req? then [outs[0].request] else []) + Requests(outs[1..])
  }

  /** The cases among the outputs, in order. */
  function Cases(outs: seq<Output>): seq<Case>
  {
    if outs == [] then []
    else (if outs[0].Emit? then [outs[0].item] else []) + Cases(outs[1..])
  }

  function CaseNames(cs: seq<Case>): seq<string>
  {
    if cs == [] then [] else [cs[0].name] + CaseNames(cs[1..])
  }

  /** The names of the entries that pass the name check, in page order. */
  function NamedEntries(entries: seq<Entry>): seq<string>
  {
    if entries == [] then []
    else (if HasName(entries[0]) then [entries[0].name.value] else []) + NamedEntries(entries[1..])
  }

  /** `k` requests, each for the offset after `offset`. */
  function PageRequests(k: nat, offset: int): (rs: seq<Request>)
    ensures |rs| == k && forall i :: 0 <= i < k ==> rs[i] == RequestOffset(offset + 1)
  {
    seq(k, _ => RequestOffset(offset + 1))
  }

  lemma {:induction false} RequestsConcat(a: seq<Output>, b: seq<Output>)
    ensures Requests(a + b) == Requests(a) + Requests(b)
  {
    if a == [] {
      assert a + b == b;
    } else {
      assert (a + b)[0] == a[0] && (a + b)[1..] == a[1..] + b;
      RequestsConcat(a[1..], b);
    }
  }

  lemma {:induction false} CasesConcat(a: seq<Output>, b: seq<Output>)
    ensures Cases(a + b) == Cases(a) + Cases(b)
  {
    if a == [] {
      assert a + b == b;
    } else {
      assert (a + b)[0] == a[0] && (a + b)[1..] == a[1..] + b;
      CasesConcat(a[1..], b);
    }
  }

  lemma {:induction false} CaseNamesConcat(a: seq<Case>, b: seq<Case>)
    ensures CaseNames(a + b) == CaseNames(a) + CaseNames(b)
  {
    if a == [] {
      assert a + b == b;
    } else {
      assert (a + b)[0] == a[0] && (a + b)[1..] == a[1..] + b;
      CaseNamesConcat(a[1..], b);
    }
  }

  /** One announcement yields one request, and a case only for a name. */
  lemma EntryRequestsAndNames(e: Entry, offset: int, reg: Registry, client: IbgeClient,
                              urljoin: string -> string)
    ensures var r := EntryOutputs(e, offset, reg, client, urljoin);
            && Requests(r.outputs) == [RequestOffset(offset + 1)]
            && CaseNames(Cases(r.outputs)) == (if |r.outputs| == 2 then [e.name.value] else [])
            && (|r.outputs| == 2 ==> HasName(e))
            && (r.error.None? && HasName(e) ==> |r.outputs| == 2)
  {
    var r := EntryOutputs(e, offset, reg, client, urljoin);
    EntryOutcome(e, offset, reg, client, urljoin);
    if |r.outputs| == 2 {
      var tail := r.outputs[1..];
      assert tail[0] == r.outputs[1] && tail[1..] == [];
      assert Cases(tail) == [r.outputs[1].item] + Cases(tail[1..]);
      assert Cases(r.outputs) == [r.outputs[1].item];
      assert Requests(tail) == [] + Requests(tail[1..]);
      var c := r.outputs[1].item;
      assert CaseNames([c]) == [c.name] + CaseNames([c][1..]);
    } else {
      assert r.outputs[1..] == [];
    }
  }

  /**
   * A page of k announcements at offset o schedules one request for o + 1
   * per announcement it gets through, skipped ones included: exactly k when
   * nothing raises, and none for an empty page.
   */
  lemma {:induction false} ParseRequests(entries: seq<Entry>, offset: int, reg: Registry, client: IbgeClient,
                                         urljoin: string -> string)
    ensures var r := ParseEntries(entries, offset, reg, client, urljoin);
            && (entries == [] ==> r == ParseResult([], None))
            && Requests(r.outputs) == PageRequests(|Requests(r.outputs)|, offset)
            && (r.error.None? ==> |Requests(r.outputs)| == |entries|)
            && (r.error.Some? ==> 1 <= |Requests(r.outputs)| <= |entries|)
  {
    if entries != [] {
      var first := EntryOutputs(entries[0], offset, reg, client, urljoin);
      EntryRequestsAndNames(entries[0], offset, reg, client, urljoin);
      if first.error.None? {
        var rest := ParseEntries(entries[1..], offset, reg, client, urljoin);
        ParseRequests(entries[1..], offset, reg, client, urljoin);
        RequestsConcat(first.outputs, rest.outputs);
        assert Requests(first.outputs + rest.outputs)
            == [RequestOffset(offset + 1)] + PageRequests(|Requests(rest.outputs)|, offset);
      }
    }
  }

  /**
   * The cases a page yields carry the names of its named announcements, in
   * page order: all of them when nothing raises, the first ones otherwise.
   */
  lemma {:induction false} ParseCases(entries: seq<Entry>, offset: int, reg: Registry, client: IbgeClient,
                                      urljoin: string -> string)
    ensures var r := ParseEntries(entries, offset, reg, client, urljoin);
            && CaseNames(Cases(r.outputs)) <= NamedEntries(entries)
            && (r.error.None? ==> CaseNames(Cases(r.outputs)) == NamedEntries(entries))
  {
    if entries != [] {
      var e := entries[0];
      var first := EntryOutputs(e, offset, reg, client, urljoin);
      EntryRequestsAndNames(e, offset, reg, client, urljoin);
      var named := if HasName(e) then [e.name.value] else [];
      assert NamedEntries(entries) == named + NamedEntries(entries[1..]);
      if first.error.None? {
        var rest := ParseEntries(entries[1..], offset, reg, client, urljoin);
        ParseCases(entries[1..], offset, reg, client, urljoin);
        CasesConcat(first.outputs, rest.outputs);
        CaseNamesConcat(Cases(first.outputs), Cases(rest.outputs));
        assert CaseNames(Cases(first.outputs)) == named;
      }
    }
  }

  /** `parse` takes the offset from the response's meta, and 0 when it has none. */
  lemma ParseOffsetDefault(resp: Response)
    ensures resp.metaOffset.None? ==> PageOffset(resp) == 0
    ensures resp.metaOffset.Some? ==> PageOffset(resp) == resp.metaOffset.value
  {
  }
}
