/**
 * The spaCy-assisted field extractor of `backend/parser.py`.
 *
 * Each field is first looked for as an explicit "Label: value" line with
 * one of four case-insensitive patterns; only when its pattern finds
 * nothing does the field fall back to what the language model produced for
 * the text (named entities, noun chunks) or, for the deadline, is left
 * empty. The language model and the date parser are not modelled: their
 * output is an input here (`Analysis`, `parseDate`).
 */
module Parser {
  import opened Wrappers
  import opened Text
  import opened LabelRegex
  import opened Dates

  // ---------------------------------------------------------------------------
  // The four label patterns
  // ---------------------------------------------------------------------------

  /** `(?:Company|Employer)[:\-]?\s*(.+)`, case-insensitive. */
  const CompanyRe: Pattern := [Word("company"), Word("employer")]

  /** `(?:Job Title|Title|Position|Role)[:\-]?\s*(.+)`, case-insensitive. */
  const PositionRe: Pattern := [Word("job title"), Word("title"), Word("position"), Word("role")]

  /** `(?:Location)[:\-]?\s*(.+)`, case-insensitive. */
  const LocationRe: Pattern := [Word("location")]

  /** `(?:Apply\s*by|Deadline)[:\-]?\s*([^\n]+)`, case-insensitive. */
  const DeadlineRe: Pattern := [Word("apply") + [Spaces] + Word("by"), Word("deadline")]

  /** `a\s*b` is well formed when `b` starts with a letter. */
  lemma SpacedWellFormed(a: string, b: string)
    requires b != [] && IsAsciiLower(b[0])
    ensures WellFormed(Word(a) + [Spaces] + Word(b))
  {
    var lab := Word(a) + [Spaces] + Word(b);
    forall x | 0 <= x < |lab| && lab[x].Spaces?
      ensures x + 1 < |lab| && lab[x + 1].Lit? && IsAsciiLower(lab[x + 1].c)
    {
      assert x == |a|;
      assert lab[x + 1] == Word(b)[0];
    }
  }

  lemma CompanyReWellFormed() ensures PatternWellFormed(CompanyRe) {
    WordWellFormed("company");
    WordWellFormed("employer");
  }

  lemma PositionReWellFormed() ensures PatternWellFormed(PositionRe) {
    WordWellFormed("job title");
    WordWellFormed("title");
    WordWellFormed("position");
    WordWellFormed("role");
  }

  lemma LocationReWellFormed() ensures PatternWellFormed(LocationRe) {
    WordWellFormed("location");
  }

  lemma DeadlineReWellFormed() ensures PatternWellFormed(DeadlineRe) {
    SpacedWellFormed("apply", "by");
    WordWellFormed("deadline");
  }

  // ---------------------------------------------------------------------------
  // What spaCy produced
  // ---------------------------------------------------------------------------

  /** A named entity: its text and its label `ent.label_` (here `tag`). */
  datatype Entity = Entity(text: string, tag: string)

  /** A noun chunk: its text and its token span `[start, end)`. */
  datatype NounChunk = NounChunk(text: string, start: nat, end: nat)

  /** The parts of `NLP(text)` the extractor reads: the entities in document
      order, the number of tokens (`len(doc)`), the noun chunks in document
      order. */
  datatype Analysis = Analysis(ents: seq<Entity>, tokenCount: nat, nounChunks: seq<NounChunk>)

  /** A processed document: the text it was made from and its analysis. */
  datatype Doc = Doc(text: string, ents: seq<Entity>, tokenCount: nat, nounChunks: seq<NounChunk>)

  /** `NLP(text)`, with the model's output supplied by `nlp`. */
  function MakeDoc(text: string, nlp: string -> Analysis): (doc: Doc)
    ensures doc.text == text
  {
    var a := nlp(text);
    Doc(text, a.ents, a.tokenCount, a.nounChunks)
  }

  // ---------------------------------------------------------------------------
  // Entity fallback
  // ---------------------------------------------------------------------------

  /** `x` is the first entity whose label is one of `labels`. */
  ghost predicate IsFirstLabelled(ents: seq<Entity>, labels: set<string>, x: int) {
    && 0 <= x < |ents|
    && ents[x].tag in labels
    && forall y :: 0 <= y < x ==> ents[y].tag !in labels
  }

  /** The `for ent in doc.ents: if ent.label_ ...: return ent.text` scan, from `from` on. */
  function FirstLabelledFrom(ents: seq<Entity>, labels: set<string>, from: nat): (r: Option<nat>)
    requires from <= |ents|
    ensures r.Some? ==> from <= r.value < |ents| && ents[r.value].tag in labels
    ensures r.Some? ==> forall y :: from <= y < r.value ==> ents[y].tag !in labels
    ensures r.None? ==> forall y :: from <= y < |ents| ==> ents[y].tag !in labels
    decreases |ents| - from
  {
    if from == |ents| then None
    else if ents[from].tag in labels then Some(from)
    else FirstLabelledFrom(ents, labels, from + 1)
  }

  /** The text of the first entity labelled with one of `labels`, or `""`. */
  function FirstEntityText(ents: seq<Entity>, labels: set<string>): (r: string)
    ensures forall x :: IsFirstLabelled(ents, labels, x) ==> r == ents[x].text
    ensures (forall y :: 0 <= y < |ents| ==> ents[y].tag !in labels) ==> r == ""
  {
    match FirstLabelledFrom(ents, labels, 0)
    case Some(x) => ents[x].text
    case None => ""
  }

  // ---------------------------------------------------------------------------
  // Noun-chunk fallback
  // ---------------------------------------------------------------------------

  /** How many leading tokens the position fallback looks at. */
  const PositionTokenWindow := 50

  function Min(a: nat, b: nat): nat { if a < b then a else b }

  /** `doc[:limit].noun_chunks`: the chunks lying inside the first `limit`
      tokens, in document order. */
  function InWindow(chunks: seq<NounChunk>, limit: nat): (r: seq<NounChunk>)
    ensures forall c :: c in r ==> c in chunks && c.end <= limit
    ensures r == [] <==> forall y :: 0 <= y < |chunks| ==> chunks[y].end > limit
  {
    if chunks == [] then []
    else (if chunks[0].end <= limit then [chunks[0]] else []) + InWindow(chunks[1..], limit)
  }

  /** Every chunk ending by token `limit` is kept: the window drops nothing
      that lies inside it. */
  lemma {:induction false} InWindowKeepsAll(chunks: seq<NounChunk>, limit: nat)
    ensures forall y :: 0 <= y < |chunks| && chunks[y].end <= limit ==> chunks[y] in InWindow(chunks, limit)
    decreases |chunks|
  {
    if chunks != [] {
      InWindowKeepsAll(chunks[1..], limit);
      assert forall y :: 1 <= y < |chunks| ==> chunks[y] == chunks[1..][y - 1];
    }
  }

  /** Longer texts come first. */
  predicate LongestFirst(chunks: seq<NounChunk>) {
    forall x, y :: 0 <= x < y < |chunks| ==> |chunks[y].text| <= |chunks[x].text|
  }

  /** Puts `c` into the longest-first list `sorted`, ahead of every chunk that
      is not longer, so that equal lengths keep their order. */
  function InsertLongestFirst(c: NounChunk, sorted: seq<NounChunk>): (r: seq<NounChunk>)
    ensures |r| == |sorted| + 1
    ensures r[0] == (if sorted == [] || |sorted[0].text| <= |c.text| then c else sorted[0])
  {
    if sorted == [] || |sorted[0].text| <= |c.text| then [c] + sorted
    else [sorted[0]] + InsertLongestFirst(c, sorted[1..])
  }

  lemma {:induction false} InsertPermutes(c: NounChunk, sorted: seq<NounChunk>)
    ensures multiset(InsertLongestFirst(c, sorted)) == multiset(sorted) + multiset{c}
  {
    if !(sorted == [] || |sorted[0].text| <= |c.text|) {
      InsertPermutes(c, sorted[1..]);
      assert sorted == [sorted[0]] + sorted[1..];
    }
  }

  lemma {:induction false} InsertKeepsOrder(c: NounChunk, sorted: seq<NounChunk>)
    requires LongestFirst(sorted)
    ensures LongestFirst(InsertLongestFirst(c, sorted))
  {
    if !(sorted == [] || |sorted[0].text| <= |c.text|) {
      var tail := InsertLongestFirst(c, sorted[1..]);
      InsertKeepsOrder(c, sorted[1..]);
      InsertPermutes(c, sorted[1..]);
      var r := [sorted[0]] + tail;
      forall y | 0 < y < |r| ensures |r[y].text| <= |r[0].text| {
        var d := tail[y - 1];
        assert d in multiset(tail);
        if d != c {
          assert d in multiset(sorted[1..]);
          var z :| 0 <= z < |sorted[1..]| && sorted[1..][z] == d;
          assert sorted[z + 1] == d;
        }
      }
    }
  }

  /** `sorted(chunks, key=lambda nc: -len(nc.text))`: a stable sort putting
      longer texts first. */
  function SortLongestFirst(chunks: seq<NounChunk>): (r: seq<NounChunk>)
    ensures |r| == |chunks|
  {
    if chunks == [] then []
    else InsertLongestFirst(chunks[0], SortLongestFirst(chunks[1..]))
  }

  /** The sort rearranges the chunks and nothing else. */
  lemma {:induction false} SortPermutes(chunks: seq<NounChunk>)
    ensures multiset(SortLongestFirst(chunks)) == multiset(chunks)
  {
    if chunks != [] {
      SortPermutes(chunks[1..]);
      InsertPermutes(chunks[0], SortLongestFirst(chunks[1..]));
      assert chunks == [chunks[0]] + chunks[1..];
    }
  }

  /** The sort puts longer texts first. */
  lemma {:induction false} SortOrders(chunks: seq<NounChunk>)
    ensures LongestFirst(SortLongestFirst(chunks))
  {
    if chunks != [] {
      SortOrders(chunks[1..]);
      InsertKeepsOrder(chunks[0], SortLongestFirst(chunks[1..]));
    }
  }

  /** `x` is the earliest chunk inside the window whose text is as long as
      any chunk's inside the window. */
  ghost predicate IsFirstLongest(chunks: seq<NounChunk>, limit: nat, x: int) {
    && 0 <= x < |chunks|
    && chunks[x].end <= limit
    && (forall y :: 0 <= y < |chunks| && chunks[y].end <= limit ==> |chunks[y].text| <= |chunks[x].text|)
    && (forall y :: 0 <= y < x && chunks[y].end <= limit ==> |chunks[y].text| < |chunks[x].text|)
  }

  lemma FirstLongestUnique(chunks: seq<NounChunk>, limit: nat, x1: int, x2: int)
    requires IsFirstLongest(chunks, limit, x1) && IsFirstLongest(chunks, limit, x2)
    ensures x1 == x2
  {
  }

  /** The earliest longest chunk of `chunks[1..]` stays so in `chunks`
      when `chunks[0]` is outside the window or shorter. */
  lemma FirstLongestShift(chunks: seq<NounChunk>, limit: nat, x: int)
    requires chunks != [] && IsFirstLongest(chunks[1..], limit, x)
    requires chunks[0].end > limit || |chunks[0].text| < |chunks[1..][x].text|
    ensures IsFirstLongest(chunks, limit, x + 1)
  {
    assert forall y :: 1 <= y < |chunks| ==> chunks[y] == chunks[1..][y - 1];
  }

  /** `chunks[0]` is the earliest longest chunk when it is inside the window
      and no later chunk inside the window is longer. */
  lemma FirstLongestHead(chunks: seq<NounChunk>, limit: nat)
    requires chunks != [] && chunks[0].end <= limit
    requires forall y :: 1 <= y < |chunks| && chunks[y].end <= limit ==> |chunks[y].text| <= |chunks[0].text|
    ensures IsFirstLongest(chunks, limit, 0)
  {
  }

  /** Because the sort is stable, the head of the sorted window is the
      earliest of its longest chunks. */
  lemma {:induction false} SortedHeadIsFirstLongest(chunks: seq<NounChunk>, limit: nat)
    requires InWindow(chunks, limit) != []
    ensures exists x :: IsFirstLongest(chunks, limit, x)
                        && SortLongestFirst(InWindow(chunks, limit))[0] == chunks[x]
    decreases |chunks|
  {
    var c, rest := chunks[0], chunks[1..];
    if c.end > limit {
      assert InWindow(chunks, limit) == InWindow(rest, limit);
      SortedHeadIsFirstLongest(rest, limit);
      var x :| IsFirstLongest(rest, limit, x) && SortLongestFirst(InWindow(rest, limit))[0] == rest[x];
      FirstLongestShift(chunks, limit, x);
    } else {
      assert InWindow(chunks, limit) == [c] + InWindow(rest, limit);
      var sortedRest := SortLongestFirst(InWindow(rest, limit));
      assert SortLongestFirst(InWindow(chunks, limit)) == InsertLongestFirst(c, sortedRest);
      if InWindow(rest, limit) == [] {
        FirstLongestHead(chunks, limit);
      } else {
        SortedHeadIsFirstLongest(rest, limit);
        var x :| IsFirstLongest(rest, limit, x) && sortedRest[0] == rest[x];
        if |rest[x].text| <= |c.text| {
          assert forall y :: 1 <= y < |chunks| ==> chunks[y] == rest[y - 1];
          FirstLongestHead(chunks, limit);
        } else {
          FirstLongestShift(chunks, limit, x);
        }
      }
    }
  }

  lemma SortedHeadIsEveryFirstLongest(chunks: seq<NounChunk>, limit: nat)
    requires InWindow(chunks, limit) != []
    ensures forall x :: IsFirstLongest(chunks, limit, x) ==>
      SortLongestFirst(InWindow(chunks, limit))[0] == chunks[x]
  {
    SortedHeadIsFirstLongest(chunks, limit);
    var x0 :| IsFirstLongest(chunks, limit, x0) && SortLongestFirst(InWindow(chunks, limit))[0] == chunks[x0];
    forall x | IsFirstLongest(chunks, limit, x) ensures x == x0 {
      FirstLongestUnique(chunks, limit, x, x0);
    }
  }

  /** What the position fallback picks: nothing when no chunk lies inside the
      window, else the earliest of the longest chunks inside it. */
  function LongestInWindow(chunks: seq<NounChunk>, limit: nat): (r: Option<NounChunk>)
    ensures r.None? <==> forall y :: 0 <= y < |chunks| ==> chunks[y].end > limit
    ensures r.Some? ==> forall x :: IsFirstLongest(chunks, limit, x) ==> r.value == chunks[x]
  {
    var nounChunks := SortLongestFirst(InWindow(chunks, limit));
    if nounChunks == [] then None
    else
      SortedHeadIsEveryFirstLongest(chunks, limit);
      Some(nounChunks[0])
  }

  // ---------------------------------------------------------------------------
  // Field extractors
  // ---------------------------------------------------------------------------

  /** `_extract_deadline`: the phrase after an "Apply by"/"Deadline" label,
      rendered as `YYYY-MM-DD` when the date parser understands it and kept
      (stripped) when it does not; `""` without a label. */
  function ExtractDeadline(text: string, parseDate: string -> Option<CalendarDate>): (r: string)
    ensures Group1(text, DeadlineRe).None? ==> r == ""
    ensures Group1(text, DeadlineRe).Some? ==> var phrase := Group1(text, DeadlineRe).value;
      && (parseDate(phrase).Some? ==> |r| == 10 && ParseIso(r) == Some(parseDate(phrase).value))
      && (parseDate(phrase).None? ==> r == Strip(phrase))
  {
    match Group1(text, DeadlineRe)
    case None => ""
    case Some(phrase) =>
      match parseDate(phrase)
      case Some(d) =>
        IsoRoundTrip(d);
        IsoFormat(d)
      case None => Strip(phrase)
  }

  /** `_extract_company`: the labelled value when the company pattern
      matches (even if it strips to `""`), else the first `ORG` entity, else `""`. */
  function ExtractCompany(doc: Doc): (r: string)
    ensures Group1(doc.text, CompanyRe).Some? ==> r == Strip(Group1(doc.text, CompanyRe).value)
    ensures Group1(doc.text, CompanyRe).None? ==>
      && (forall x :: IsFirstLabelled(doc.ents, {"ORG"}, x) ==> r == doc.ents[x].text)
      && ((forall y :: 0 <= y < |doc.ents| ==> doc.ents[y].tag != "ORG") ==> r == "")
  {
    match Group1(doc.text, CompanyRe)
    case Some(value) => Strip(value)
    case None => FirstEntityText(doc.ents, {"ORG"})
  }

  /** The company label needs no colon and no word boundary, and any case
      will do: wherever the text spells `company` (e.g. inside "accompany")
      followed by a character other than a newline, the label is found, and
      then the entity fallback is never consulted. */
  lemma CompanyLabelAnywhere(t: string, i: nat)
    requires i + 7 < |t| && t[i + 7] != '\n'
    requires forall x :: 0 <= x < 7 ==> CharMatches(t[i + x], "company"[x])
    ensures Search(t, CompanyRe).Some? && Search(t, CompanyRe).value.start <= i
    ensures Group1(t, CompanyRe).Some?
    ensures forall ents, tokenCount, chunks ::
      ExtractCompany(Doc(t, ents, tokenCount, chunks)) == Strip(Group1(t, CompanyRe).value)
  {
    CompanyReWellFormed();
    WordFoundAnywhere(t, CompanyRe, 0, "company", i);
  }

  /** "accompany the team" carries a company label, so the ORG fallback is
      not used for it. */
  lemma AccompanyIsACompanyLabel()
    ensures Group1("accompany the team", CompanyRe).Some?
  {
    CompanyLabelAnywhere("accompany the team", 2);
  }

  /** A label with nothing after it: when the whole text is `company` (in any
      case) and a separator, the greedy `[:\-]?` gives the separator back and
      group 1 is the separator. */
  lemma CompanyLabelAlone(t: string)
    requires |t| == 8 && IsSep(t[7])
    requires forall x :: 0 <= x < 7 ==> CharMatches(t[x], "company"[x])
    ensures Group1(t, CompanyRe) == Some([t[7]])
  {
    CompanyReWellFormed();
    CompanyLabelAnywhere(t, 0);
    SearchFindsLabel(t, CompanyRe);
    var f := Search(t, CompanyRe).value;
    WordMatchEnd(t, 0, if f.alt == 0 then "company" else "employer", f.labelEnd);
    SeparatorCapturedWhenNothingFollows(t, CompanyRe);
  }

  /** ... and so that separator is the company, whatever entities the document has. */
  lemma CompanyIsSeparatorWhenAlone(t: string)
    requires |t| == 8 && IsSep(t[7])
    requires forall x :: 0 <= x < 7 ==> CharMatches(t[x], "company"[x])
    ensures forall ents, tokenCount, chunks ::
      ExtractCompany(Doc(t, ents, tokenCount, chunks)) == [t[7]]
  {
    CompanyLabelAlone(t);
    var v := [t[7]];
    assert Strip(v) == v by {
      StripSurrounded([], v, []);
      assert [] + v + [] == v;
    }
    forall ents, tokenCount, chunks ensures ExtractCompany(Doc(t, ents, tokenCount, chunks)) == v {
      assert Group1(Doc(t, ents, tokenCount, chunks).text, CompanyRe) == Some(v);
    }
  }

  /** `"Company:"` on its own yields `":"`. */
  lemma TrailingCompanyLabel()
    ensures forall ents, tokenCount, chunks ::
      ExtractCompany(Doc("Company:", ents, tokenCount, chunks)) == ":"
  {
    CompanyIsSeparatorWhenAlone("Company:");
  }

  /** `_extract_location`: the labelled value, else the first entity labelled
      `GPE` or `LOC` (whichever comes first), else `""`. */
  function ExtractLocation(doc: Doc): (r: string)
    ensures Group1(doc.text, LocationRe).Some? ==> r == Strip(Group1(doc.text, LocationRe).value)
    ensures Group1(doc.text, LocationRe).None? ==>
      && (forall x :: IsFirstLabelled(doc.ents, {"GPE", "LOC"}, x) ==> r == doc.ents[x].text)
      && ((forall y :: 0 <= y < |doc.ents| ==> doc.ents[y].tag !in {"GPE", "LOC"}) ==> r == "")
  {
    match Group1(doc.text, LocationRe)
    case Some(value) => Strip(value)
    case None => FirstEntityText(doc.ents, {"GPE", "LOC"})
  }

  /** `_extract_position`: the labelled value, else the stripped text of the
      earliest longest noun chunk inside the first `min(50, len(doc))`
      tokens, else `""`. */
  function ExtractPosition(doc: Doc): (r: string)
    ensures Group1(doc.text, PositionRe).Some? ==> r == Strip(Group1(doc.text, PositionRe).value)
    ensures Group1(doc.text, PositionRe).None? ==>
      var limit := Min(PositionTokenWindow, doc.tokenCount);
      && (forall x :: IsFirstLongest(doc.nounChunks, limit, x) ==> r == Strip(doc.nounChunks[x].text))
      && ((forall y :: 0 <= y < |doc.nounChunks| ==> doc.nounChunks[y].end > limit) ==> r == "")
  {
    match Group1(doc.text, PositionRe)
    case Some(value) => Strip(value)
    case None =>
      match LongestInWindow(doc.nounChunks, Min(PositionTokenWindow, doc.tokenCount))
      case Some(chunk) => Strip(chunk.text)
      case None => ""
  }

  /** The keys of the record `parse` returns. */
  const FieldKeys: set<string> := {"company", "position", "location", "deadline"}

  /** The dictionary literal `{"company": ..., "position": ..., "location": ..., "deadline": ...}`. */
  function Record(company: string, position: string, location: string, deadline: string)
    : (r: map<string, string>)
    ensures r.Keys == FieldKeys
    ensures r["company"] == company && r["position"] == position
    ensures r["location"] == location && r["deadline"] == deadline
  {
    map["company" := company, "position" := position, "location" := location, "deadline" := deadline]
  }

  /** `parse`: a record with exactly the four field keys; the deadline is
      read from the raw text, the other three from the processed document. */
  function Parse(text: string, nlp: string -> Analysis, parseDate: string -> Option<CalendarDate>)
    : (r: map<string, string>)
    ensures r.Keys == FieldKeys
    ensures r["company"] == ExtractCompany(MakeDoc(text, nlp))
    ensures r["position"] == ExtractPosition(MakeDoc(text, nlp))
    ensures r["location"] == ExtractLocation(MakeDoc(text, nlp))
    ensures r["deadline"] == ExtractDeadline(text, parseDate)
  {
    var doc := MakeDoc(text, nlp);
    Record(ExtractCompany(doc), ExtractPosition(doc), ExtractLocation(doc), ExtractDeadline(text, parseDate))
  }
}
