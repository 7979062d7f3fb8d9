# Job-posting field extractor: a Dafny model

This project models the extractor core of a job and internship tracker backend.
A job posting arrives as pasted text or as a fetched page. The backend pulls four
fields out of it: `company`, `position`, `location` and `deadline`.

Each field is looked for first as an explicit "Label: value" line, using one of
four case-insensitive regular expressions. Only when that search finds nothing does
the field fall back:

- company: the first spaCy `ORG` entity;
- location: the first `GPE` or `LOC` entity;
- position: the longest noun chunk in the first 50 tokens;
- deadline: left empty.

A deadline phrase that `dateparser` understands is written as `YYYY-MM-DD`.

Around this core sit three more pieces:

- the Flask application's own copy of the extractors;
- its request-boundary rules: the `Bearer` header split, the blank-text check of
  `/parse` and the defaults of the record `/submit` builds;
- the scraper's host dispatch to an Indeed or LinkedIn adapter, with its
  "body text, else whole page" fallback.

Modules:

- `Wrappers`: `Option` and `Result`.
- `Text`: `str.isspace` (also the `\s` class), `str.strip`, `in` on strings and
  `str.lower`.
- `LabelRegex`: a hand-written matcher for the one regex shape the extractor uses,
  `(?:L1|L2|...)[:\-]?\s*(.+)` with `re.IGNORECASE`. It comes with a relational
  definition of every way that regex can match (`Via`) and of the order in which
  Python's backtracking matcher tries them (`TriedBefore`). It proves that the
  matcher returns the leftmost match and, at that position, the first match Python
  tries.
- `Dates`: calendar dates, `date.isoformat()`, and a reader that inverts it.
- `Parser`: backend/parser.py.
- `App`: backend/app.py.
- `Scraper`: backend/scraper.py.

Foreign code is a parameter or plain data:

- The spaCy pipeline is a function from the text to its entities `(text, label)`,
  its token count and its noun chunks `(text, start token, end token)`.
- `dateparser.parse` is a function from a phrase to an optional calendar date.
- `jwt.decode` is a function from a token to an optional JSON payload.
- The clock readings are string arguments.
- A parsed HTML page is a map from each CSS selector to the text of the first
  element it finds, plus the text of the whole document.

## Model

| member | source | states |
|---|---|---|
| Text.IsSpace | backend/parser.py:46 | `str.isspace()`, which is also `\s` in the patterns: space, tab, newline and carriage return are white space; no digit, ASCII letter, `:` or `-` is |
| Text.Strip | backend/parser.py:46 | `str.strip()`: the result is a contiguous slice of the input. Only white space lies outside it, it neither starts nor ends with white space, and it is empty exactly when the input is all white space |
| Text.StripSurrounded | backend/app.py:182 | stripping removes exactly the white space around a trimmed string |
| Text.SpaceRunEnd | backend/parser.py:31 | the greedy `\s*` stops at the first non-space character or at the end of the text |
| Text.Contains | backend/scraper.py:49-51 | `needle in haystack`: never true when the needle is longer than the text, always true for the empty needle; Text.ContainsIff ties it to an occurrence at some offset |
| Text.ContainsIff | backend/scraper.py:49 | the recursive substring test succeeds exactly when the needle occurs at some offset |
| Text.ContainsInfix | backend/scraper.py:49 | a needle is found in any text that has it somewhere inside |
| Text.Lower | backend/scraper.py:47 | `str.lower()`: never shorter than its input; Text.LowerAppend, Text.LowerPointwise and Text.LowerUnchanged give its behaviour |
| Text.LowerAppend | backend/scraper.py:47 | lower-casing distributes over concatenation |
| Text.LowerPointwise | backend/scraper.py:47 | where each character lower-cases to a single character, `lower()` works character by character |
| Text.LowerUnchanged | backend/scraper.py:47 | a string with no capitals is its own lower case |
| LabelRegex.CharMatches | backend/parser.py:31-34 | `re.IGNORECASE` on one character: every character matches itself; a non-letter pattern character matches only itself; an ASCII text character matches a pattern letter exactly when it is that letter or its capital |
| LabelRegex.LetterIsNotSpace | backend/parser.py:31-34 | a letter of a label never matches white space, even case-folded |
| LabelRegex.LineEnd | backend/parser.py:31 | where the greedy `(.+)` stops: at the first newline at or after its start, or at the end of the text, with no newline before it |
| LabelRegex.LabelEnd | backend/parser.py:31-34 | where one label alternative, `Apply\s*by` included, ends when matched at a position, with each `\s*` greedy; the end lies within the text; LabelEndSound and LabelEndComplete tie it to every way the label can match |
| LabelRegex.LabelEndSound | backend/parser.py:31-34 | the position the label scanner reports is an end of a label match |
| LabelRegex.LabelEndComplete | backend/parser.py:31-34 | a label can end in one place only, and the scanner reports it: an inner `\s*` never needs to give characters back |
| LabelRegex.CaptureStart | backend/parser.py:31 | `\s*(.+)` after position `k`: group 1 starts at the latest possible position, or there is no match at all |
| LabelRegex.AfterLabel | backend/parser.py:31 | `[:\-]?\s*` after the label: the separator, when taken, is one `:` or `-`, and group 1 can start where the white space ends; AfterLabelFirst says the separator is given back only when needed |
| LabelRegex.AfterLabelFirst | backend/parser.py:31 | the optional separator is taken whenever the rest can still match; otherwise it is skipped, and `\s*` is as long as possible |
| LabelRegex.TryAlternative | backend/parser.py:31-34 | one alternative followed by `[:\-]?\s*(.+)` at one position: a match starts there, records that alternative, and captures a non-empty rest of one line |
| LabelRegex.TryAlternativeFirst | backend/parser.py:31-34 | for one alternative, the scanner's result is a match and is the first one Python's backtracking tries; no result means no match |
| LabelRegex.MatchAt | backend/parser.py:31-34 | the match tried at one position starts there, comes from an alternative at or after the first one tried, and captures a non-empty rest of one line after the separator |
| LabelRegex.SearchFrom | backend/parser.py:51 | a search from a position reports a match starting at or after it, with the same shape of group 1 |
| LabelRegex.Search | backend/parser.py:51 | `pattern.search(text)` reports a match whose group 1 is non-empty, starts off a newline and runs to the end of its line; SearchIsLeftmostFirst gives which match |
| LabelRegex.MatchAtNone | backend/parser.py:31-34 | no result at a position means that no alternative matches there |
| LabelRegex.MatchAtSome | backend/parser.py:31-34 | a result at a position is a match, and no match among the alternatives from the first one tried on is tried before it |
| LabelRegex.MatchAtFirst | backend/parser.py:31-34 | alternatives are tried in order: the result at a position is the first match Python tries there, and no result means nothing matches there |
| LabelRegex.SearchFromReports | backend/parser.py:51 | what the search reports is what the position matcher found at its start |
| LabelRegex.SearchFromFinds | backend/parser.py:51 | the search stops no later than any position where a match exists |
| LabelRegex.NoMatchWhereMatchAtFails | backend/parser.py:51 | where the position matcher fails, no way of matching exists |
| LabelRegex.SearchIsLeftmostFirst | backend/parser.py:51 | `re.search`: the result is at the leftmost position that can match, and it is the first match tried there; no result exactly when nothing matches anywhere |
| LabelRegex.Group1 | backend/parser.py:53 | group 1 is never empty, does not start with a newline and contains no newline |
| LabelRegex.SeparatorCapturedWhenNothingFollows | backend/parser.py:31-34 | when only newlines follow the separator that ends a label, the greedy `[:\-]?` is given back and group 1 is the separator itself |
| LabelRegex.WordMatches | backend/parser.py:31-34 | a label word matches any text that spells it, letter for letter, in any case |
| LabelRegex.WordFoundAnywhere | backend/parser.py:31-34 | there is no word boundary: wherever a label word occurs with a non-newline character after it, the search succeeds, there or earlier |
| LabelRegex.WordMatchEnd | backend/parser.py:31-34 | a label word's match ends right after it |
| LabelRegex.CaptureSkipsWhiteSpace | backend/parser.py:31-34 | `\s*` skips all white space after the label, newlines included; when a non-space character follows, group 1 starts there and runs to the end of its line |
| LabelRegex.SearchFindsLabel | backend/parser.py:51 | the reported match begins with one of the pattern's labels |
| Parser.SpacedWellFormed | backend/parser.py:34 | `Apply\s*by` has its inner `\s*` followed by a letter |
| Parser.CompanyReWellFormed | backend/parser.py:31 | the company pattern, Company or Employer, fits the matcher |
| Parser.PositionReWellFormed | backend/parser.py:32 | the position pattern, Job Title, Title, Position or Role, fits the matcher |
| Parser.LocationReWellFormed | backend/parser.py:33 | the location pattern fits the matcher |
| Parser.DeadlineReWellFormed | backend/parser.py:34 | the deadline pattern, `Apply\s*by` or Deadline, fits the matcher |
| Parser.MakeDoc | backend/parser.py:88 | the processed document carries the text it was made from |
| Parser.FirstLabelledFrom | backend/parser.py:54-56 | the entity loop returns the first entity, in document order, whose label is in the set, or reports that there is none |
| Parser.FirstEntityText | backend/parser.py:54-57 | the text of the first entity with a matching label, or `""` when there is none |
| Parser.InWindow | backend/parser.py:74-75 | the noun chunks of `doc[:k]` are chunks of the document that end by token `k`, and there are none exactly when no chunk ends by token `k`; Parser.InWindowKeepsAll gives the other direction |
| Parser.InWindowKeepsAll | backend/parser.py:74-75 | every chunk of the document that ends by token `k` is among the noun chunks of `doc[:k]` |
| Parser.InsertLongestFirst | backend/parser.py:75 | inserting adds one element. The inserted, earlier chunk goes in front when it is at least as long as the head, so equal lengths keep document order |
| Parser.InsertPermutes | backend/parser.py:75 | insertion adds exactly the new chunk |
| Parser.InsertKeepsOrder | backend/parser.py:75 | insertion keeps the list longest-first |
| Parser.SortLongestFirst | backend/parser.py:75 | `sorted(..., key=-len)` keeps the number of chunks |
| Parser.SortPermutes | backend/parser.py:75 | the sort is a permutation |
| Parser.SortOrders | backend/parser.py:75 | the sort result is ordered by non-increasing text length |
| Parser.FirstLongestUnique | backend/parser.py:75-77 | there is at most one earliest longest chunk |
| Parser.FirstLongestShift | backend/parser.py:75-77 | the earliest longest chunk of a list whose head is shorter is the earliest longest chunk of its tail |
| Parser.FirstLongestHead | backend/parser.py:75-77 | a head at least as long as the rest is the earliest longest chunk |
| Parser.SortedHeadIsFirstLongest | backend/parser.py:75-77 | the head of the stable sort is the earliest chunk of maximal length in the window |
| Parser.SortedHeadIsEveryFirstLongest | backend/parser.py:75-77 | the head of the sort is the one earliest longest chunk of the window |
| Parser.LongestInWindow | backend/parser.py:74-77 | the earliest longest chunk inside the first `k` tokens, or none when the window holds no chunk |
| Parser.ExtractDeadline | backend/parser.py:40-47 | no label gives `""`. When the date parser understands the captured phrase, the result is a 10-character ISO date that reads back as that date. Otherwise it is the stripped phrase |
| Parser.ExtractCompany | backend/parser.py:50-57 | a label match always wins, even when its value strips to `""`. Otherwise the first `ORG` entity, else `""` |
| Parser.CompanyLabelAnywhere | backend/parser.py:50-53 | `company` in any case, inside any word, followed by a non-newline character, is a label match, and the entities are then never consulted |
| Parser.AccompanyIsACompanyLabel | backend/parser.py:31 | "accompany the team" carries a company label |
| Parser.CompanyLabelAlone | backend/parser.py:31 | a text that is just `company` and a separator captures the separator |
| Parser.CompanyIsSeparatorWhenAlone | backend/parser.py:51-53 | ... so that separator is the company, whatever the entities |
| Parser.TrailingCompanyLabel | backend/parser.py:51-53 | `"Company:"` on its own yields `":"` |
| Parser.ExtractLocation | backend/parser.py:60-67 | a label match wins. Otherwise the first entity labelled `GPE` or `LOC`, whichever comes first with neither preferred, else `""` |
| Parser.ExtractPosition | backend/parser.py:70-78 | a label match wins. Otherwise the stripped text of the earliest longest noun chunk inside the first `min(50, len(doc))` tokens, else `""` |
| Parser.Record | backend/parser.py:89-94 | the dictionary literal has exactly the four field keys, each holding its value |
| Parser.Parse | backend/parser.py:84-97 | `parse` returns exactly the keys `company`, `position`, `location` and `deadline`. The first three come from the processed document and the deadline from the raw text |
| Dates.Digits | backend/parser.py:45 | zero-padded decimal digits of the given width |
| Dates.DigitsRoundTrip | backend/parser.py:45 | the digits read back as the number when it fits the width |
| Dates.IsoFormat | backend/parser.py:45 | `date.isoformat()` is ten characters: digits with `-` at positions 4 and 7 |
| Dates.IsoRoundTrip | backend/parser.py:45 | the ISO string reads back as the same date |
| Dates.IsoFormatInjective | backend/parser.py:45 | distinct dates give distinct deadline strings |
| App.ExtractDeadline | backend/app.py:118-125 | app.py's copy gives the same deadline as parser.py's on every text and date parser |
| App.ExtractCompany | backend/app.py:128-137 | app.py's copy agrees with parser.py's on every document |
| App.ExtractLocation | backend/app.py:140-147 | app.py's copy agrees with parser.py's on every document |
| App.ExtractPosition | backend/app.py:150-161 | app.py's copy agrees with parser.py's on every document |
| App.ParseJob | backend/app.py:164-174 | `parse_job` returns the same four-key record as `parse`, with the deadline taken from the raw text |
| App.Get | backend/app.py:182 | `dict.get` gives the stored value when the key is present, else the default |
| App.Truthy | backend/app.py:200 | Python truthiness of a decoded JSON value: false exactly for `None`, `False`, `0`, `""`, `[]` and `{}` |
| App.ParseStatus | backend/app.py:183-186 | 200 exactly for a parsed record, 400 exactly for missing text |
| App.ParseEndpoint | backend/app.py:181-186 | missing, empty or all-white-space `text` gives 400 without parsing. A body that is not an object, or a `text` that is not a string, fails. Otherwise the stripped text is parsed |
| App.BlankTextIsRejected | backend/app.py:182-184 | white-space-only text is refused with 400, whatever else the body holds |
| App.SurroundingSpaceIgnored | backend/app.py:182-186 | white space around the text does not change the parse |
| App.SplitOnce | backend/app.py:88 | `split(" ", 1)`: the part before the first separator and the rest after it |
| App.SplitAtFirst | backend/app.py:88 | the split happens at the first separator |
| App.BearerToken | backend/app.py:86-88 | a token exists exactly when the header starts with the case-sensitive `"Bearer "`, and the header is that prefix followed by the token |
| App.FirstSpaceOfBearer | backend/app.py:88 | in such a header the first space is the prefix's own, so the token is everything after it |
| App.BearerRoundTrip | backend/app.py:88 | `"Bearer " + token` gives back the token, further spaces included |
| App.Authenticate | backend/app.py:85-93 | a missing header, or one without the prefix, is refused. A token the decoder rejects is refused. Otherwise the user is the payload's `sub`, or `None` when it has none |
| App.RejectedBeforeDecoding | backend/app.py:86-87 | without the prefix the decoder makes no difference: rejected before decoding |
| App.LowerCaseBearerRejected | backend/app.py:86 | `"bearer "` in lower case is refused |
| App.BuildApplication | backend/app.py:194-207 | exactly the twelve keys. `user_id` comes from the token. Seven client fields default to `""` only when absent, `status` to `"Applied"`. `application_date` falls back to today when absent or falsy. The two timestamps come from separate clock readings |
| App.ApplicationField | backend/app.py:195-206 | one entry of the record literal: the token's user, the two clock readings, `data.get("application_date") or today`, `status` defaulting to `"Applied"` and every other key to `""`; BuildApplication states the result for all twelve keys |
| App.UserIdFromTokenOnly | backend/app.py:195 | a `user_id` sent by the client changes nothing |
| App.EmptyBodyDefaults | backend/app.py:196-204 | an empty body gives `""` fields, status `"Applied"` and today's date |
| App.EmptyStringsKeptExceptDate | backend/app.py:196-204 | explicit `""` values are kept for the `.get` fields and `status`, but replaced by today for `application_date` |
| App.SubmitEndpoint | backend/app.py:191-207 | authentication failures come first; then a body that is not an object fails; an authenticated object body is always ready, with exactly the record App.BuildApplication builds from it and the token's user, so its defaults carry through |
| Scraper.SelectOne | backend/scraper.py:69 | `select_one` finds an element exactly when the page has one for the selector |
| Scraper.TextOf | backend/scraper.py:63-64 | `""` for a missing element, else the element's text (a found tag is always truthy) |
| Scraper.Adapted | backend/scraper.py:75-76 | the meta record has exactly `company`, `position` and `location`. The text is the body when non-empty, else the whole document |
| Scraper.ExtractIndeed | backend/scraper.py:68-76 | each meta field comes from its Indeed selector, or is `""` when the selector finds nothing. The text is the description body, or the whole page when the body is missing or empty |
| Scraper.LinkedInBodyElement | backend/scraper.py:84 | the first description selector's element whenever it exists, even with empty text; otherwise the second selector's |
| Scraper.ExtractLinkedIn | backend/scraper.py:80-88 | each meta field comes from its LinkedIn selector, or is `""`. The text is the chosen body, or the whole page when it is empty |
| Scraper.SiteOf | backend/scraper.py:47-52 | Indeed exactly when the lower-cased host contains `"indeed."`. LinkedIn exactly when it does not but contains `"linkedin."` |
| Scraper.ExtractText | backend/scraper.py:45-57 | the chosen adapter's result, or the whole-document text with an empty meta record for any other host |
| Scraper.TextEmptyOnlyForEmptyDocument | backend/scraper.py:45-88 | the returned text is empty only when the document's text is empty |
| Scraper.MetaKeysBySite | backend/scraper.py:45-88 | both adapters give the three meta keys, and unknown hosts give none |
| Scraper.NothingSelected | backend/scraper.py:63-88 | on a page where no selector finds anything, every meta field is `""` and the text is the whole document |
| Scraper.EmptyLinkedInBodyShadowsAlternative | backend/scraper.py:84 | an empty first LinkedIn description still wins over the second selector |
| Scraper.NeedlesAreLowerCase | backend/scraper.py:49-51 | lower-casing leaves the two needles unchanged |
| Scraper.CapitalNeedleLowers | backend/scraper.py:47 | `"INDEED.".lower()` is `"indeed."` |
| Scraper.AnyIndeedInfixSelectsIndeed | backend/scraper.py:49 | any host with `"indeed."` anywhere inside goes to Indeed (`notindeed.`, a port, a suffix) |
| Scraper.UpperCaseIndeedSelectsIndeed | backend/scraper.py:47-49 | capitals in the host do not hide the site |
| Scraper.LinkedInInfixSelectsLinkedIn | backend/scraper.py:51 | a host with `"linkedin."` goes to LinkedIn unless it also names Indeed |
| Scraper.IndeedBeforeLinkedIn | backend/scraper.py:49-52 | a host naming both sites goes to Indeed, in either order |

## Left out

- The network fetch, `fetch_page` (backend/scraper.py:33-39), is I/O.
- The Supabase client and insert are left out, and so are the responses built
  from the insert (backend/app.py:74, 208-214). `App.SubmitEndpoint` stops at the
  record handed to the insert.
- Token checking is left out: JWT signature and expiry checks (`jwt.decode`,
  backend/app.py:90) are a parameter that accepts or rejects a token. The
  exception text in the 401 body is not modelled.
- The 422 reply of `/parse` (backend/app.py:187-188) answers exceptions raised
  inside spaCy or dateparser. Those libraries are parameters here and cannot fail.
- Other plumbing is left out:
  - JSON decoding of request bodies (`get_json(force=True)`, including its
    400 on malformed JSON) and `jsonify`;
  - Flask routing, CORS and the `/health` route;
  - environment loading, the module-level model load, logging and
    `time.perf_counter` timing.
- `App.ParseEndpoint` and `App.SubmitEndpoint` treat every failure outside the
  route's `try` as one crash reply (Flask's 500). They do not distinguish the
  exception types.
- spaCy internals are inputs: tokenisation, named-entity recognition and
  noun-chunking. So are dateparser's fuzzy parsing and its "prefer future"
  resolution against the current date.
- The HTML side is also input:
  - BeautifulSoup/lxml parsing and CSS selector evaluation;
  - the whitespace joining of `get_text(" ", strip=True)`;
  - `urlparse`, whose result arrives as the host string.
- Text.Lower maps only ASCII capitals, U+212A and U+0130. Every other character
  is kept unchanged. Python lower-cases every other letter to another
  non-ASCII character, so the substring tests for the ASCII needles
  `"indeed."` and `"linkedin."` come out the same. Other uses of `lower()` are
  not modelled.
- LabelRegex implements the one regex shape of the four patterns, not a
  general regex engine. The `re.IGNORECASE` folds it models are Python's
  folds for a–z, including the four non-ASCII letters Python equates with `i`,
  `s` and `k`.
- App.Json: numbers are mathematical reals, so Python's distinction between
  ints and floats is not kept, and `NaN`, `Infinity` and `-Infinity` (which
  `json.loads` accepts, and which are truthy) cannot be represented at all.
  This touches the truthiness test on `application_date` and every client
  value that `/submit` copies into the record unchanged (`company`, `status`,
  `notes` and the rest), whose int or float type the record does not keep.

Behaviour a reader might expect that the code does not have:

- The separator after a label is optional (`[:\-]?`), not required.
- No word boundary is required: "accompany" carries a company label.
- Location takes the first `GPE` or `LOC` entity. It does not join several
  entities, and neither label is preferred over the other.
- Position has no role-keyword filter and no 100-token window. It is the longest
  noun chunk in the first `min(50, len(doc))` tokens.
- Each site adapter asks for one selector per field. LinkedIn's body has a second
  selector, used only when the first finds no element at all; an empty first
  element still wins. No noise tokens are stripped.
- Unknown hosts get the whole-document text, not a list of "main content"
  selectors.
- The Insight extractor and its fields are not in this code, and neither is the
  merge engine or the salary, timeframe, start date and job type fields.
