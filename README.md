# Paraná missing-children spider, modelled in Dafny

This project models the decision logic of the `parana` spider of the
fio-de-ariadne crawler. The spider walks the paginated listing of missing
children of the state of Paraná on desaparecidosdobrasil.org. Each listing
page yields requests and items:

- **Requests.** `request_offset(n)` builds the request for the page at offset
  `n`. `start_requests` asks for offset 0. `parse` yields one request for
  `offset + 1` for every announcement on the page, before it looks at the
  announcement. An empty page yields nothing, and that ends the walk.
- **Items.** An announcement with a non-empty link text becomes a `Case`:
  - the text lines are stripped, and lines left empty are dropped;
  - every parser of the registry runs over the lines;
  - a missing `age_at_occurrence` is filled with year(`missing_since`) − year(`dob`);
  - `last_seen_at` is replaced by `"<city> - <state abbreviation>"` when the IBGE lookup finds the city;
  - the item carries the name, the joined URL, the lines joined by `"\n"`, and the fields.

Modules:

- `Wrappers`: `Option` and `Result`.
- `PyText`: the parts of Python's `str` the spider uses: `strip()` with
  Python's whitespace set, `"\n".join`, and `str(n)` for integers. Each has
  an inverse or a characterisation (`Split`, `ReadDecimal`).
- `PyDate`: `datetime.strptime(s, "%Y-%m-%d")` as CPython implements it.
  - `%Y` is four digits, `%m` is `1[0-2]|0[1-9]|[1-9]` and `%d` is `3[01]|[12]\d|0[1-9]|[1-9]| [1-9]`.
  - The whole string must be consumed.
  - The date must exist in the Gregorian calendar, with years 1–9999.
- `ParanaSpider`: the spider. `clean_city` is the method `CleanCity`. The loop
  of `parse` is the method `Parse`. One pass of that loop is
  `ParseAnnouncement`, and the part of a pass after the name check is
  `ExtractCase`. That part mutates `kwargs` step by step, as the source does.
  Each method is proved equal to a specification function: `CleanedCity`,
  `ParseEntries`, `EntryOutputs` and `CaseOf`. The lemmas are stated about
  those functions.
- `PageWalk`: the walk over a sequence of page sizes, built from the per-page
  requests of `ParanaSpider`.

Every exception that the modelled steps of `parse` raise is a result, not a
precondition. Exceptions raised inside the collaborators are not modelled;
"## Left out" lists them: a raising parser, an HTTP failure of the city
lookup, `urljoin`, and `Case` rejecting an undeclared field. A generator
that raises has still yielded what came before the raise, so `parse`
returns a `ParseResult`: everything it yielded, and the exception that
ended it, if any. The modelled exceptions are:

- `KeyError` when the link has no `href` attribute;
- `KeyError` from the field lookups when the registry lacks `age_at_occurrence`,
  `dob` or `missing_since`. The keys are looked up in the order of the
  condition, which stops at the first false conjunct;
- `ValueError` from `strptime`;
- `TypeError` from `Case(name=..., **kwargs)` when the registry has a field
  called `name`, `url` or `full_text`.

Where the code behaves in a way one might not expect, the model follows the code:

- The date format is not a strict `YYYY-MM-DD`. Because `%m` and `%d` accept one digit, `strptime` also reads `"2000-5-1"` (`ParseDateUnpadded`).
- `clean_city` leaves an empty-string `last_seen_at` alone, as well as a `None` one, because it tests truthiness.
- The name check is `not name`, and the name is not stripped, so a name of one space yields a `Case`.
- A missing `href` raises before the name check and ends the page.

## Model

| member | source | states |
|---|---|---|
| `PyText.Strip` | crawler/spiders/parana.py:41 | `line.strip()` has no whitespace at either end. It is the infix of the line left when whitespace runs are removed at both ends. It is empty exactly when the line is all whitespace. |
| `PyText.StripStripped` | crawler/spiders/parana.py:41 | Stripping a line that is already stripped changes nothing. |
| `PyText.SplitJoin` | crawler/spiders/parana.py:62 | When there is at least one line and no line contains the separator, joining the lines with it and splitting at it gives back exactly those lines, in order. |
| `PyText.ReadDecimalOfIntToString` | crawler/spiders/parana.py:19 | The decimal form `str(n)` used in the URL reads back as `n`, negative numbers included. |
| `PyText.IntToStringInjective` | crawler/spiders/parana.py:19 | Different offsets have different decimal forms. |
| `PyDate.ParseDate` | crawler/spiders/parana.py:51-54 | A successful `strptime(s, "%Y-%m-%d")` gives an existing date. The string is four digits, a dash, a month token, a dash and a day token, and these denote that date. |
| `PyDate.ParseDateOfParts` | crawler/spiders/parana.py:51-54 | Every string of the format's shape parses. It gives its date when that date exists and an out-of-range error otherwise. |
| `PyDate.ParseFormatDate` | crawler/spiders/parana.py:51-54 | Every existing date written as zero-padded `YYYY-MM-DD` parses back to itself. |
| `PyDate.ParseDateUnpadded` | crawler/spiders/parana.py:51 | `"2000-5-1"` parses as 1 May 2000. |
| `PyDate.ParseDateLeapDay` | crawler/spiders/parana.py:51 | `"2000-02-29"` parses. `"1900-02-29"` raises, because that day does not exist. |
| `PyDate.ParseDateExamples` | crawler/spiders/parana.py:51-54 | `"2000-05-01"` and `"2010-01-01"` parse to their dates. |
| `ParanaSpider.RequestOffsetRoundTrip` | crawler/spiders/parana.py:17-20 | `request_offset(n)` carries `n` in its meta. Its URL is the base URL, then `?offset=`, then a numeral that reads back as `n`. |
| `ParanaSpider.RequestUrlInjective` | crawler/spiders/parana.py:17-20 | Two offsets with the same request URL are equal, so deduplicating requests by URL is deduplicating by offset. |
| `ParanaSpider.StartRequests` | crawler/spiders/parana.py:22-23 | The walk starts with exactly one request, for offset 0, at `<base>?offset=0`. |
| `ParanaSpider.ParseOffsetDefault` | crawler/spiders/parana.py:29 | The page offset is the one in the response's meta, or 0 when the meta has none. |
| `ParanaSpider.Contents` | crawler/spiders/parana.py:40-42 | Every normalised line is non-empty and stripped. There are never more of them than input lines. |
| `ParanaSpider.KeptLine` | crawler/spiders/parana.py:41 | An input line contributes at most one line, which is non-empty and stripped. |
| `ParanaSpider.ContentsConcat` | crawler/spiders/parana.py:40-42 | Normalisation works line by line and keeps the input order: normalising `a + b` gives the normalised `a` followed by the normalised `b`. |
| `ParanaSpider.ContentsMembers` | crawler/spiders/parana.py:40-42 | A line is in `contents` exactly when it is non-empty and is the stripped form of some input line. |
| `ParanaSpider.ContentsOfNormalised` | crawler/spiders/parana.py:40-42 | Lines that are already non-empty and stripped come through unchanged. |
| `ParanaSpider.ContentsIdempotent` | crawler/spiders/parana.py:40-42 | Normalising twice is the same as normalising once. |
| `ParanaSpider.RunParsers` | crawler/spiders/parana.py:44 | The field map has exactly one key per registry entry, holding that parser's result on `contents`. |
| `ParanaSpider.InferAge` | crawler/spiders/parana.py:46-55 | When the age step succeeds, it changes no key other than `age_at_occurrence`. If it changes anything, the age was `None` before and is present after. |
| `ParanaSpider.AgeKeptWhenPresent` | crawler/spiders/parana.py:46-47 | A present age is left unchanged, whatever `dob` and `missing_since` hold. |
| `ParanaSpider.AgeUnchangedWithoutDates` | crawler/spiders/parana.py:46-50 | With no age, and `dob` or `missing_since` `None`, the map is unchanged. `missing_since` is not even looked up when `dob` is `None`. |
| `ParanaSpider.AgeFromYears` | crawler/spiders/parana.py:51-55 | With no age and both dates readable, the age becomes year(`missing_since`) − year(`dob`), and nothing else changes. |
| `ParanaSpider.AgeBadDate` | crawler/spiders/parana.py:51-54 | When the age branch is taken and either date does not parse, the result is a date error, not a map. |
| `ParanaSpider.AgeKeyRequired` | crawler/spiders/parana.py:47 | A field map without `age_at_occurrence` raises `KeyError`. |
| `ParanaSpider.DateKeysRequired` | crawler/spiders/parana.py:47-49 | With no age, a missing `dob` key raises `KeyError`; with `dob` holding a value, a missing `missing_since` key raises `KeyError`. |
| `ParanaSpider.AgeExample` | crawler/spiders/parana.py:51-55 | `dob` 2000-05-01 and `missing_since` 2010-01-01 give an age of 10. Month and day play no part. |
| `ParanaSpider.CleanedCity` | crawler/spiders/parana.py:66-74 | The city cleanup keeps the keys and changes no field other than `last_seen_at`. |
| `ParanaSpider.CleanCity` | crawler/spiders/parana.py:66-74 | The imperative `clean_city` returns exactly the cleaned map. |
| `ParanaSpider.CleanCityFalsy` | crawler/spiders/parana.py:67 | A missing or falsy `last_seen_at` (`None`, `""`) leaves the map unchanged. |
| `ParanaSpider.CleanCityFound` | crawler/spiders/parana.py:68-73 | When the lookup finds a city, `last_seen_at` becomes `nome + " - " + sigla`, and only that entry changes. |
| `ParanaSpider.CleanCityNotFound` | crawler/spiders/parana.py:71 | When the lookup finds nothing, the map is unchanged. |
| `ParanaSpider.CleanCityExample` | crawler/spiders/parana.py:68-73 | "Curitiba", found in the state "PR", becomes "Curitiba - PR". |
| `ParanaSpider.ExtractCase` | crawler/spiders/parana.py:40-64 | The imperative extraction of a named entry returns the `Case`, or the exception, that `CaseOf` specifies. |
| `ParanaSpider.CaseOfFields` | crawler/spiders/parana.py:44-64 | A built `Case` carries the entry's name and the joined URL. Its full text is the normalised lines joined by `"\n"`, which split back into them when there is at least one line and no line holds a newline. It has one field per registry entry, `age_at_occurrence` among them. Every field other than the age and `last_seen_at` is its parser's result unchanged, and a parsed age is kept. |
| `ParanaSpider.EntryOutcome` | crawler/spiders/parana.py:26-64 | Every announcement first yields the request for `offset + 1`. One without an `href` raises `KeyError` right after that request, which ends the page. An unnamed one with a link yields nothing more and raises nothing. A second output exists exactly when the entry has a link and a name and nothing raised: it is that entry's `Case`, with its name. |
| `ParanaSpider.EntryRequestsAndNames` | crawler/spiders/parana.py:29-37 | One announcement yields exactly one request. A case is yielded only for an entry that passes the name check, and always for one when nothing raises. |
| `ParanaSpider.ParseAnnouncement` | crawler/spiders/parana.py:26-64 | One imperative pass of the loop yields exactly what `EntryOutputs` specifies. |
| `ParanaSpider.Parse` | crawler/spiders/parana.py:25-64 | The imperative loop of `parse` yields exactly what `ParseEntries` specifies. That is every pass's outputs, in page order, up to and including the pass that raises. |
| `ParanaSpider.ParseRequests` | crawler/spiders/parana.py:26-30 | The page has k announcements at offset o. Every request yielded is `request_offset(o + 1)`. There are exactly k of them when nothing raises, unnamed entries included, and between 1 and k otherwise. An empty page yields nothing and raises nothing. |
| `ParanaSpider.ParseCases` | crawler/spiders/parana.py:35-64 | The names of the yielded cases are a prefix of the names of the page's named announcements, in page order. They are all of them when nothing raises. |
| `PageWalk.FirstEmpty` | crawler/spiders/parana.py:26-30 | The offset of the first page with no announcement: all pages before it have some. |
| `PageWalk.CrawlExample` | crawler/spiders/parana.py:22-30 | Pages of 3, 2 and 0 announcements schedule offset 1 three times and offset 2 twice, then nothing. |
| `PageWalk.ScheduleBounds` | crawler/spiders/parana.py:26-30 | Every scheduled request is `request_offset` of an offset between the current page plus one and the first empty page. |
| `PageWalk.PageRequestsCount` | crawler/spiders/parana.py:26-30 | A page of k announcements at offset o schedules k requests for o + 1 and no other request. |
| `PageWalk.ScheduleCounts` | crawler/spiders/parana.py:26-30 | After each non-empty page before the first empty one, the next offset is requested exactly as many times as that page has announcements. |
| `PageWalk.CrawlFetches` | crawler/spiders/parana.py:22-30 | The walk requests every offset from 1 up to the first empty page, and no other. With the start request, the pages fetched are offsets 0 to the first empty page. |

## Left out

- Scrapy's `Request` and `Response` objects, CSS selection and the `.attrib`, `.get()` and `.getall()` calls are not modelled. An announcement is given as its link's `href` (absent when missing), the link's first text node, and all its text nodes.
- `response.urljoin` is a parameter of the model. It is a total function, so an exception raised by it is not modelled. Whether the joined URL is absolute is the framework's concern and is not stated.
- The `PARSERS` registry in `crawler/text` is not part of this model. It is a parameter: a map from field name to a total function of the normalised lines, so a parser that raises is not modelled. Field values are text or integers, and `str()` and truthiness are modelled for those two kinds only.
- `APIClientIBGE` (constructed for "Paraná") is an HTTP client and is not part of this model. Its network errors are not modelled. It is a parameter holding the state abbreviation and a city search that returns the match's `nome` or nothing.
- The `Case` item class in `crawler/items` is not part of this model. It is a plain record. Scrapy's rejection of fields an item does not declare is not modelled.
- The class attributes `name` and `allowed_domains` are not modelled: only the framework reads them.
- Scrapy's scheduler is not modelled: how it drops repeated URLs, the order and concurrency of fetches, and how it logs an exception raised by `parse`. `PageWalk` assumes each offset's page is fetched once; `RequestUrlInjective` shows that dropping repeated URLs gives exactly that. It also assumes that no page raises.
- `PyDate.ParseDate`: Python's `\d` also matches non-ASCII decimal digits. The model accepts only ASCII digits. Of the `datetime` it builds, the model keeps only the year, month and day.
- `ParanaSpider.CleanCity`: it returns the updated map instead of mutating the caller's dict. `parse` rebinds `kwargs` to the returned value, so no difference is observable. The same holds for the in-place age assignment in `ExtractCase`, which updates a local map.
- `PyText.ReadDecimal` is a partner used to state that the decimal forms can be read back. It is not Python's `int()`, which also accepts signs, spaces and underscores.
