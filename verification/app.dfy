/**
 * The request-boundary logic of the Flask application (backend/app.py):
 * its own copy of the four label patterns and field extractors, `parse_job`,
 * the input check of the `/parse` route, the `Authorization` header split of
 * the `get_current_user` decorator and the record built by `/submit`.
 *
 * Request bodies and token payloads are JSON values; the JWT decoder, the
 * spaCy pipeline, dateparser and the clock are parameters.
 */
module App {
  import opened Wrappers
  import opened Text
  import opened LabelRegex
  import opened Dates
  import Parser

  // ---------------------------------------------------------------------------
  // The extractors, as app.py writes them again
  // ---------------------------------------------------------------------------

  /** `COMPANY_RE`, `POSITION_RE`, `LOCATION_RE` and `DEADLINE_RE` of app.py. */
  const CompanyRe: Pattern := [Word("company"), Word("employer")]
  const PositionRe: Pattern := [Word("job title"), Word("title"), Word("position"), Word("role")]
  const LocationRe: Pattern := [Word("location")]
  const DeadlineRe: Pattern := [Word("apply") + [Spaces] + Word("by"), Word("deadline")]

  /** `extract_deadline`: the same three outcomes as the parser module's copy. */
  function ExtractDeadline(text: string, parseDate: string -> Option<CalendarDate>): (r: string)
    ensures r == Parser.ExtractDeadline(text, parseDate)
  {
    var m := Group1(text, DeadlineRe);
    if m.Some? then
      var parsed := parseDate(m.value);
      if parsed.Some? then IsoFormat(parsed.value) else Strip(m.value)
    else ""
  }

  /** `extract_company`: agrees with the parser module's copy on every document. */
  function ExtractCompany(doc: Parser.Doc): (r: string)
    ensures r == Parser.ExtractCompany(doc)
  {
    var m := Group1(doc.text, CompanyRe);
    if m.Some? then Strip(m.value) else Parser.FirstEntityText(doc.ents, {"ORG"})
  }

  /** `extract_location`: agrees with the parser module's copy on every document. */
  function ExtractLocation(doc: Parser.Doc): (r: string)
    ensures r == Parser.ExtractLocation(doc)
  {
    var m := Group1(doc.text, LocationRe);
    if m.Some? then Strip(m.value) else Parser.FirstEntityText(doc.ents, {"GPE", "LOC"})
  }

  /** `extract_position`: agrees with the parser module's copy on every document. */
  function ExtractPosition(doc: Parser.Doc): (r: string)
    ensures r == Parser.ExtractPosition(doc)
  {
    var m := Group1(doc.text, PositionRe);
    if m.Some? then Strip(m.value)
    else
      var nounChunks := Parser.LongestInWindow(doc.nounChunks, Parser.Min(50, doc.tokenCount));
      if nounChunks.Some? then
        var text := Strip(nounChunks.value.text);
        text
      else ""
  }

  /** `parse_job`: the four-key record, with the deadline read from the raw
      text; it is the record the parser module's `parse` builds. */
  function ParseJob(text: string, nlp: string -> Parser.Analysis, parseDate: string -> Option<CalendarDate>)
    : (r: map<string, string>)
    ensures r.Keys == Parser.FieldKeys
    ensures r["deadline"] == ExtractDeadline(text, parseDate)
    ensures r == Parser.Parse(text, nlp, parseDate)
  {
    var doc := Parser.MakeDoc(text, nlp);
    map["company" := ExtractCompany(doc), "position" := ExtractPosition(doc),
        "location" := ExtractLocation(doc), "deadline" := ExtractDeadline(text, parseDate)]
  }

  // ---------------------------------------------------------------------------
  // JSON values
  // ---------------------------------------------------------------------------

  /** A decoded JSON value, as `request.get_json` and `jwt.decode` produce it. */
  datatype Json =
    | Null
    | Bool(b: bool)
    | Num(n: real)
    | Str(s: string)
    | Arr(items: seq<Json>)
    | Obj(fields: map<string, Json>)

  /** Python truthiness of the decoded value: `None`, `False`, `0`, `""`,
      `[]` and `{}` are false. */
  predicate Truthy(v: Json): (r: bool)
    ensures !r <==> v in {Null, Bool(false), Num(0.0), Str(""), Arr([]), Obj(map[])}
  {
    match v
    case Null => false
    case Bool(b) => b
    case Num(n) => n != 0.0
    case Str(s) => s != []
    case Arr(items) => items != []
    case Obj(fields) => fields != map[]
  }

  /** `d.get(key, default)`. */
  function Get(d: map<string, Json>, key: string, default: Json): (r: Json)
    ensures key in d ==> r == d[key]
    ensures key !in d ==> r == default
  {
    if key in d then d[key] else default
  }

  // ---------------------------------------------------------------------------
  // /parse
  // ---------------------------------------------------------------------------

  /** What the `/parse` route answers: 200 with the record, 400 for missing
      text, 500 when the body is not an object or `text` is not a string
      (the `.get`/`.strip` calls sit outside the route's `try`). */
  datatype ParseReply = Parsed(record: map<string, string>) | MissingText | Crashed

  function ParseStatus(reply: ParseReply): (code: nat)
    ensures reply.Parsed? <==> code == 200
    ensures reply.MissingText? <==> code == 400
  {
    match reply
    case Parsed(_) => 200
    case MissingText => 400
    case Crashed => 500
  }

  /** The `/parse` route: strip `text` (default `""`), refuse it with 400 when
      nothing is left, otherwise parse the stripped text. */
  function ParseEndpoint(body: Json, nlp: string -> Parser.Analysis, parseDate: string -> Option<CalendarDate>)
    : (r: ParseReply)
    ensures r.MissingText? <==>
      body.Obj? && var raw := Get(body.fields, "text", Str(""));
      raw.Str? && AllSpace(raw.s, 0, |raw.s|)
    ensures r.Parsed? ==>
      && body.Obj? && "text" in body.fields && body.fields["text"].Str?
      && var text := Strip(body.fields["text"].s);
        text != [] && r.record == ParseJob(text, nlp, parseDate)
    ensures r.Crashed? <==> !body.Obj? || !Get(body.fields, "text", Str("")).Str?
  {
    if !body.Obj? then Crashed
    else
      var raw := Get(body.fields, "text", Str(""));
      if !raw.Str? then Crashed
      else
        var text := Strip(raw.s);
        if text == [] then MissingText else Parsed(ParseJob(text, nlp, parseDate))
  }

  /** Whitespace-only text never reaches the parser, whatever surrounds it. */
  lemma BlankTextIsRejected(fields: map<string, Json>, blank: string,
                            nlp: string -> Parser.Analysis, parseDate: string -> Option<CalendarDate>)
    requires forall i :: 0 <= i < |blank| ==> IsSpace(blank[i])
    ensures ParseEndpoint(Obj(fields["text" := Str(blank)]), nlp, parseDate) == MissingText
    ensures ParseStatus(ParseEndpoint(Obj(fields["text" := Str(blank)]), nlp, parseDate)) == 400
  {
    assert AllSpace(blank, 0, |blank|);
  }

  /** Surrounding whitespace does not change what `/parse` extracts. */
  lemma {:induction false} SurroundingSpaceIgnored(fields: map<string, Json>, pre: string, text: string, post: string,
                                     nlp: string -> Parser.Analysis, parseDate: string -> Option<CalendarDate>)
    requires text != [] && !IsSpace(text[0]) && !IsSpace(text[|text| - 1])
    requires AllSpace(pre, 0, |pre|) && AllSpace(post, 0, |post|)
    ensures ParseEndpoint(Obj(fields["text" := Str(pre + text + post)]), nlp, parseDate)
         == Parsed(ParseJob(text, nlp, parseDate))
  {
    StripSurrounded(pre, text, post);
  }

  // ---------------------------------------------------------------------------
  // The Authorization header
  // ---------------------------------------------------------------------------

  const BearerPrefix: string := "Bearer "

  /** `s.split(sep, 1)`: the part before the first `sep` and, when there is
      one, the part after it. */
  function SplitOnce(s: string, sep: char): (r: (string, Option<string>))
    ensures r.1.None? ==> r.0 == s && sep !in s
    ensures r.1.Some? ==> s == r.0 + [sep] + r.1.value && sep !in r.0
  {
    if s == [] then ([], None)
    else if s[0] == sep then ([], Some(s[1..]))
    else
      var rest := SplitOnce(s[1..], sep);
      assert s == [s[0]] + s[1..];
      ([s[0]] + rest.0, rest.1)
  }

  /** The token of `get_current_user`: `None` unless the header starts with
      the exact `"Bearer "`, else everything after the header's first space. */
  function BearerToken(header: string): (r: Option<string>)
    ensures r.Some? <==> BearerPrefix <= header
    ensures r.Some? ==> header == BearerPrefix + r.value
  {
    if !(BearerPrefix <= header) then None
    else
      var parts := SplitOnce(header, ' ');
      FirstSpaceOfBearer(header);
      parts.1
  }

  /** `split` cuts at the first separator. */
  lemma {:induction false} SplitAtFirst(s: string, sep: char, k: nat)
    requires k < |s| && s[k] == sep && sep !in s[..k]
    ensures SplitOnce(s, sep) == (s[..k], Some(s[k + 1..]))
  {
    if k > 0 {
      assert s[0] in s[..k];
      assert s[1..][..k - 1] == s[1..k];
      SplitAtFirst(s[1..], sep, k - 1);
      assert [s[0]] + s[1..k] == s[..k];
    }
  }

  /** In a header starting with `"Bearer "` the first space is the prefix's. */
  lemma FirstSpaceOfBearer(header: string)
    requires BearerPrefix <= header
    ensures SplitOnce(header, ' ') == ("Bearer", Some(header[|BearerPrefix|..]))
  {
    assert header[..6] == "Bearer";
    SplitAtFirst(header, ' ', 6);
  }

  /** The token keeps every further space: the round trip of the header. */
  lemma BearerRoundTrip(token: string)
    ensures BearerToken(BearerPrefix + token) == Some(token)
  {
    var header := BearerPrefix + token;
    assert BearerPrefix <= header;
    assert header == BearerPrefix + BearerToken(header).value;
    assert header[|BearerPrefix|..] == token;
  }

  /** Why a request is turned away with 401. */
  datatype AuthError = MissingBearer | InvalidToken

  /** `get_current_user`: the header defaults to `""`; without the prefix the
      request is refused before the decoder is consulted; a payload without
      `sub` yields `None` as the user. */
  function Authenticate(header: Option<string>, decode: string -> Option<map<string, Json>>)
    : (r: Result<Json, AuthError>)
    ensures header.None? ==> r == Err(MissingBearer)
    ensures header.Some? && !(BearerPrefix <= header.value) ==> r == Err(MissingBearer)
    ensures header.Some? && BearerPrefix <= header.value ==>
      var token := header.value[|BearerPrefix|..];
      && (decode(token).None? ==> r == Err(InvalidToken))
      && (decode(token).Some? ==> r == Ok(Get(decode(token).value, "sub", Null)))
  {
    var raw := if header.Some? then header.value else "";
    match BearerToken(raw)
    case None => Err(MissingBearer)
    case Some(token) =>
      match decode(token)
      case None => Err(InvalidToken)
      case Some(payload) => Ok(Get(payload, "sub", Null))
  }

  /** Without the exact prefix the decoder makes no difference. */
  lemma RejectedBeforeDecoding(header: string, decode1: string -> Option<map<string, Json>>,
                               decode2: string -> Option<map<string, Json>>)
    requires !(BearerPrefix <= header)
    ensures Authenticate(Some(header), decode1) == Authenticate(Some(header), decode2) == Err(MissingBearer)
  {
  }

  /** The prefix test is case-sensitive: `"bearer "` is refused. */
  lemma LowerCaseBearerRejected(token: string, decode: string -> Option<map<string, Json>>)
    ensures Authenticate(Some("bearer " + token), decode) == Err(MissingBearer)
  {
    assert ("bearer " + token)[0] == 'b';
  }

  // ---------------------------------------------------------------------------
  // /submit
  // ---------------------------------------------------------------------------

  /** The keys of the application record, in the order app.py writes them. */
  const ApplicationKeys: set<string> := {"user_id", "company", "position", "location", "job_type",
    "application_date", "deadline", "status", "job_url", "notes", "created_at", "updated_at"}

  /** The client fields that default to `""` only when absent. */
  const EmptyDefaultKeys: set<string> := {"company", "position", "location", "job_type",
    "deadline", "job_url", "notes"}

  /** The record `submit_endpoint` inserts. `today` is `utcnow().date().isoformat()`;
      `createdAt` and `updatedAt` are the two separate `utcnow().isoformat()` readings. */
  function BuildApplication(data: map<string, Json>, userId: Json, today: string,
                            createdAt: string, updatedAt: string): (r: map<string, Json>)
    ensures r.Keys == ApplicationKeys
    ensures r["user_id"] == userId
    ensures forall k :: k in EmptyDefaultKeys ==> r[k] == (if k in data then data[k] else Str(""))
    ensures r["status"] == (if "status" in data then data["status"] else Str("Applied"))
    ensures r["application_date"] ==
      (if "application_date" in data && Truthy(data["application_date"]) then data["application_date"] else Str(today))
    ensures r["created_at"] == Str(createdAt) && r["updated_at"] == Str(updatedAt)
  {
    map key | key in ApplicationKeys :: ApplicationField(data, key, userId, today, createdAt, updatedAt)
  }

  /** One entry of the record: the token's user, the creation and update
      times, `data.get("application_date") or today`, `status` defaulting to
      `"Applied"`, and every other key defaulting to `""`. */
  function ApplicationField(data: map<string, Json>, key: string, userId: Json, today: string,
                            createdAt: string, updatedAt: string): Json
  {
    if key == "user_id" then userId
    else if key == "created_at" then Str(createdAt)
    else if key == "updated_at" then Str(updatedAt)
    else if key == "application_date" then
      var appDate := Get(data, "application_date", Null);
      if Truthy(appDate) then appDate else Str(today)
    else if key == "status" then Get(data, "status", Str("Applied"))
    else Get(data, key, Str(""))
  }

  /** A client cannot choose the record's user: a `user_id` in the body is ignored. */
  lemma UserIdFromTokenOnly(data: map<string, Json>, spoofed: Json, userId: Json,
                            today: string, createdAt: string, updatedAt: string)
    ensures BuildApplication(data["user_id" := spoofed], userId, today, createdAt, updatedAt)
         == BuildApplication(data - {"user_id"}, userId, today, createdAt, updatedAt)
  {
    var a := BuildApplication(data["user_id" := spoofed], userId, today, createdAt, updatedAt);
    var b := BuildApplication(data - {"user_id"}, userId, today, createdAt, updatedAt);
    assert forall k :: k in EmptyDefaultKeys ==> a[k] == b[k];
    assert a.Keys == b.Keys;
  }

  /** An empty body gives the `.get` and `or` defaults of every field. */
  lemma EmptyBodyDefaults(userId: Json, today: string, createdAt: string, updatedAt: string)
    ensures var r := BuildApplication(map[], userId, today, createdAt, updatedAt);
      && r["status"] == Str("Applied") && r["application_date"] == Str(today)
      && forall k :: k in EmptyDefaultKeys ==> r[k] == Str("")
  {
  }

  /** An explicit empty string is kept for the `""`-defaulted fields and for
      `status`, but replaced by today's date for `application_date`. */
  lemma EmptyStringsKeptExceptDate(data: map<string, Json>, userId: Json, today: string,
                                   createdAt: string, updatedAt: string)
    requires forall k :: k in data ==> data[k] == Str("")
    requires "status" in data && "application_date" in data
    ensures var r := BuildApplication(data, userId, today, createdAt, updatedAt);
      && r["status"] == Str("")
      && r["application_date"] == Str(today)
      && forall k :: k in EmptyDefaultKeys && k in data ==> r[k] == Str("")
  {
  }

  /** What `/submit` prepares before the insert: 401 for authentication
      failures, 500 when the body is not an object, else the record. */
  datatype SubmitReply = Unauthorized(why: AuthError) | SubmitCrashed | Ready(record: map<string, Json>)

  function SubmitEndpoint(header: Option<string>, decode: string -> Option<map<string, Json>>, body: Json,
                          today: string, createdAt: string, updatedAt: string): (r: SubmitReply)
    ensures Authenticate(header, decode).Err? ==> r == Unauthorized(Authenticate(header, decode).error)
    ensures Authenticate(header, decode).Ok? && !body.Obj? ==> r == SubmitCrashed
    ensures Authenticate(header, decode).Ok? && body.Obj? ==>
      r == Ready(BuildApplication(body.fields, Authenticate(header, decode).value, today, createdAt, updatedAt))
    ensures r.Ready? ==>
      && body.Obj? && Authenticate(header, decode).Ok?
      && r.record.Keys == ApplicationKeys
      && r.record["user_id"] == Authenticate(header, decode).value
  {
    match Authenticate(header, decode)
    case Err(why) => Unauthorized(why)
    case Ok(userId) =>
      if body.Obj? then Ready(BuildApplication(body.fields, userId, today, createdAt, updatedAt))
      else SubmitCrashed
  }
}
