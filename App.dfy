/** The `/recommend` handler of the recommendation service: it validates the
    query, asks the vector index for the three nearest documents, projects each
    document's metadata to a recommendation and writes a templated explanation.
    The similarity search itself is an opaque function parameter. */
module App {
  import opened Text
  import opened RagEngine

  /** An optional value: None, or Some value. */
  datatype Option<T> = None | Some(value: T)

  /** How many documents every search asks for. */
  const K: nat := 3

  const QueryRequired := "Query is required"
  const BadRequest: nat := 400

  /** The first line of every explanation, and the line break plus empty line
      after it. (The sentence is one literal in the handler; it is written in
      pieces here only so that the verifier can see it holds no line break.) */
  const PreambleSentence :=
    "Based on the given job requirement, " + "the following SHL assessments " + "are recommended:"
  const Preamble := PreambleSentence + "\n\n"

  /** The fixed clause that follows the name in every bullet. */
  const Justification := " is relevant based on required " + "skills and assessment type."

  /** The keys of every recommendation; `remote_support` is not exposed. */
  const RecommendationKeys: set<string> := {"assessment_name", "duration", "test_type", "url"}

  /** The search call the handler made: query text and number of neighbours. */
  datatype SearchRequest = SearchRequest(query: string, k: nat)

  /** The JSON body and status of the reply. */
  datatype Response =
    | Answer(answer: string, recommendations: seq<map<string, string>>)
    | Rejected(error: string, status: nat)

  /** Python truthiness of the query: exactly a missing query and the empty
      string are falsy. */
  predicate ValidQuery(query: Option<string>): (valid: bool)
    ensures !valid <==> query == None || query == Some("")
  {
    query.Some? && query.value != ""
  }

  /** A document whose metadata has every key the handler reads. */
  predicate Answerable(doc: Document) {
    RecommendationKeys <= doc.metadata.Keys
  }

  predicate AllAnswerable(docs: seq<Document>) {
    forall i :: 0 <= i < |docs| ==> Answerable(docs[i])
  }

  /** The recommendation for one document: its metadata restricted to the
      four recommendation keys, values copied verbatim. */
  function Project(doc: Document): (rec: map<string, string>)
    requires Answerable(doc)
    ensures rec.Keys == RecommendationKeys
    ensures forall key :: key in rec ==> rec[key] == doc.metadata[key]
  {
    map[
      "assessment_name" := doc.metadata["assessment_name"],
      "duration" := doc.metadata["duration"],
      "test_type" := doc.metadata["test_type"],
      "url" := doc.metadata["url"]]
  }

  /** The explanation line for one assessment: "- ", the name, then the fixed
      clause. */
  function Bullet(name: string): (line: string)
    ensures "- " + name <= line
    ensures EndsWith(line, Justification)
    ensures |line| == 2 + |name| + |Justification|
  {
    "- " + name + Justification
  }

  /** The recommendations for the retrieved documents: one per document, in order. */
  function Recommendations(docs: seq<Document>): (recs: seq<map<string, string>>)
    requires AllAnswerable(docs)
    ensures |recs| == |docs|
    ensures forall i :: 0 <= i < |docs| ==> recs[i].Keys == RecommendationKeys
    ensures forall i, key :: 0 <= i < |docs| && key in recs[i] ==> recs[i][key] == docs[i].metadata[key]
  {
    seq(|docs|, i requires 0 <= i < |docs| => Project(docs[i]))
  }

  /** The bullet lines for the retrieved documents: one per document, bullet i
      naming recommendation i. */
  function Bullets(docs: seq<Document>): (lines: seq<string>)
    requires AllAnswerable(docs)
    ensures |lines| == |docs|
    ensures forall i :: 0 <= i < |docs| ==> lines[i] == Bullet(Recommendations(docs)[i]["assessment_name"])
  {
    seq(|docs|, i requires 0 <= i < |docs| => Bullet(docs[i].metadata["assessment_name"]))
  }

  /** The explanation: the preamble, then the lines joined with line breaks.
      It always begins with the preamble and is exactly the preamble when there
      are no lines. */
  function Explanation(lines: seq<string>): (text: string)
    ensures Preamble <= text
    ensures |lines| == 0 ==> text == Preamble
  {
    Preamble + Join("\n", lines)
  }

  /** The `recommend` handler. A missing or empty query is rejected with
      "Query is required" and status 400 before any search; otherwise the
      index is searched once for the query with k = 3, and the answer holds one
      recommendation and one explanation bullet per retrieved document, in
      retrieval order. `query` is the request body's `query` field: None when
      it is absent or JSON null. `request` is the search call the handler
      makes, and the search is called with exactly its query and k. Since the
      search is a pure function value, "no search" on a rejected query is
      stated through `request == None` only; the contract cannot observe
      whether the function was applied. */
  method Recommend(query: Option<string>, search: (string, nat) -> seq<Document>)
    returns (response: Response, request: Option<SearchRequest>)
    requires forall q: string :: AllAnswerable(search(q, K))
    ensures !ValidQuery(query) ==> request == None && response == Rejected(QueryRequired, BadRequest)
    ensures ValidQuery(query) ==> request == Some(SearchRequest(query.value, K))
    ensures ValidQuery(query) ==>
      var docs := search(query.value, K);
      response == Answer(Explanation(Bullets(docs)), Recommendations(docs))
  {
    if !ValidQuery(query) {
      return Rejected(QueryRequired, BadRequest), None;
    }
    request := Some(SearchRequest(query.value, K));
    var docs := search(request.value.query, request.value.k);

    var recommendations: seq<map<string, string>> := [];
    var explanationLines: seq<string> := [];
    for i := 0 to |docs|
      invariant |recommendations| == i && |explanationLines| == i
      invariant forall j :: 0 <= j < i ==> recommendations[j] == Project(docs[j])
      invariant forall j :: 0 <= j < i ==> explanationLines[j] == Bullet(docs[j].metadata["assessment_name"])
    {
      var doc := docs[i];
      recommendations := recommendations + [Project(doc)];
      explanationLines := explanationLines + [Bullet(doc.metadata["assessment_name"])];
    }

    assert recommendations == Recommendations(docs);
    assert explanationLines == Bullets(docs);
    var explanation := Explanation(explanationLines);
    response := Answer(explanation, recommendations);
  }

  /** Every explanation begins with the preamble; with no documents it is
      exactly the preamble; otherwise it ends with the last bullet, so no
      line break trails it. */
  lemma ExplanationShape(docs: seq<Document>)
    requires AllAnswerable(docs)
    ensures Preamble <= Explanation(Bullets(docs))
    ensures |docs| == 0 ==> Explanation(Bullets(docs)) == Preamble
    ensures |docs| > 0 ==>
      EndsWith(Explanation(Bullets(docs)), Bullet(docs[|docs| - 1].metadata["assessment_name"]))
  {
    var lines := Bullets(docs);
    if |docs| > 0 {
      JoinEnds("\n", lines);
      var j := Join("\n", lines);
      var last := lines[|lines| - 1];
      assert (Preamble + j)[|Preamble + j| - |last|..] == j[|j| - |last|..];
    }
  }

  /** Split at line breaks, the explanation is the preamble sentence, an empty
      line and then exactly one line per recommendation. With no
      recommendations the last line is empty. This needs names without line
      breaks: a name holding one would add lines. */
  lemma ExplanationLines(docs: seq<Document>)
    requires AllAnswerable(docs)
    requires forall i :: 0 <= i < |docs| ==> '\n' !in docs[i].metadata["assessment_name"]
    ensures
      var lines := Split(Explanation(Bullets(docs)), '\n');
      |docs| > 0 ==> lines == [PreambleSentence, ""] + Bullets(docs)
    ensures |docs| == 0 ==> Split(Explanation(Bullets(docs)), '\n') == [PreambleSentence, "", ""]
  {
    var bullets := Bullets(docs);
    SplitAfterPreamble(Join("\n", bullets));
    if |docs| > 0 {
      forall i | 0 <= i < |bullets|
        ensures '\n' !in bullets[i]
      {
        BulletIsOneLine(docs[i].metadata["assessment_name"]);
      }
      SplitJoin(bullets, '\n');
    }
  }

  /** The preamble splits into its sentence and one empty line. */
  lemma SplitAfterPreamble(body: string)
    ensures Split(Preamble + body, '\n') == [PreambleSentence, ""] + Split(body, '\n')
  {
    assert '\n' !in PreambleSentence;
    assert Preamble + body == PreambleSentence + ['\n'] + ("" + ['\n'] + body);
    SplitAfterPiece(PreambleSentence, '\n', "" + ['\n'] + body);
    SplitAfterPiece("", '\n', body);
  }

  /** A bullet holds a line break only when the name does. */
  lemma BulletIsOneLine(name: string)
    ensures '\n' in Bullet(name) <==> '\n' in name
  {
  }

  /** The row behind a document, as a recommendation. */
  function RowRecommendation(row: Row): map<string, string> {
    map["assessment_name" := row.name, "duration" := row.duration, "test_type" := row.testType, "url" := row.url]
  }

  /** The recommendation is that of some catalog row. */
  ghost predicate FromCatalog(rec: map<string, string>, rows: seq<Row>) {
    exists row :: row in rows && rec == RowRecommendation(row)
  }

  /** End to end: when the index holds the documents built from the catalog
      rows and the search returns documents of that index, the handler's
      precondition holds and every recommendation is the name, duration, test
      type and URL of some catalog row. */
  lemma RecommendationsComeFromCatalog(rows: seq<Row>, index: seq<Document>, retrieved: seq<Document>)
    requires |index| == |rows|
    requires forall i :: 0 <= i < |rows| ==> index[i] == MakeDoc(rows[i])
    requires forall d :: d in retrieved ==> d in index
    ensures AllAnswerable(retrieved)
    ensures forall j :: 0 <= j < |retrieved| ==> FromCatalog(Recommendations(retrieved)[j], rows)
  {
    forall j | 0 <= j < |retrieved|
      ensures Answerable(retrieved[j])
    {
      assert retrieved[j] in index;
    }
    forall j | 0 <= j < |retrieved|
      ensures FromCatalog(Recommendations(retrieved)[j], rows)
    {
      var d := retrieved[j];
      assert d in index;
      var i :| 0 <= i < |index| && index[i] == d;
      assert rows[i] in rows && Recommendations(retrieved)[j] == Project(d) == RowRecommendation(rows[i]);
    }
  }
}
