# SHL assessment recommendation engine: catalog rendering and response building

This project models the deterministic part of a small retrieval service that
recommends SHL assessments for a free-text job requirement. Two parts are modelled.

- **Catalog loader** (`RagEngine.dfy`, module `RagEngine`). Each catalog row is
  rendered into one labelled text, its `combined_text`:
  `Assessment Name: N. Description: D. Skills: S. Test Type: T. Duration: U. Remote Testing Support: R`.
  The row also gets a metadata dictionary with exactly the keys `assessment_name`,
  `url`, `duration`, `test_type` and `remote_support`. The rows become a list of
  documents, one per row, in row order. `Render` and `MakeDoc` are functions, and
  `BuildDocuments` is the loop of `create_vector_db`.
- **Recommendation handler** (`App.dfy`, module `App`). `Recommend` is the body of
  the `/recommend` route:
  - a missing or empty query is rejected with `"Query is required"` and status 400, before any search;
  - otherwise the vector index is searched once with k = 3;
  - each retrieved document's metadata is projected to a four-key recommendation;
  - the explanation is a fixed preamble followed by one bullet per document, joined with line breaks.

  The similarity search is a function parameter. The handler also returns the
  search call it makes (`request`): none, or the query with k = 3. The search is
  then called with exactly that query and k.

`Text.dfy` (module `Text`) gives Python's `sep.join(parts)` and one-character
`s.split(c)`. Splitting a join of separator-free parts gives the parts back,
which lets the model count the explanation's lines exactly. `Text.JoinSplit`
(joining the pieces of a split gives the text back) only checks that `Split`
is defined correctly.

Design decisions:
- Metadata and recommendations are `map<string, string>`, as the source's dictionaries are. So "exactly these keys" is a statement about `Keys`.
- Catalog cells are strings that are already converted.
- The handler's query is `Option<string>`. `None` stands for an absent field or JSON `null`, and Python's falsiness of `""` is `ValidQuery`.
- `Recommend` requires that every document the search returns has the four keys it reads. The index holds only `MakeDoc` outputs, and `RecommendationsComeFromCatalog` proves that such documents meet this requirement. It also proves that every recommendation is then some catalog row's name, duration, test type and URL.

## Model

| member | source | states |
|---|---|---|
| `RagEngine.Render` | backend/rag_engine.py:13-20 | The rendered text starts with `Assessment Name: ` and the name. It ends with `. Remote Testing Support: ` and the remote-support value, with no separator after it. Its length is the six cells plus 93 label and separator characters. |
| `RagEngine.RenderIsLabelledJoin` | backend/rag_engine.py:13-20 | The rendered text is the six labelled cells (`<column>: <cell>`) in fixed column order, joined with `". "`. |
| `RagEngine.RenderDependsOnRenderedCells` | backend/rag_engine.py:13-20 | Rendering is a pure function of the six rendered cells: rows that agree on them give equal text, and the URL plays no part. |
| `RagEngine.MakeDoc` | backend/rag_engine.py:26-36 | A document's content is its row's rendered text. Its metadata has exactly the keys assessment_name, url, duration, test_type and remote_support, each copied verbatim from the row. Description and skills are not carried over. |
| `RagEngine.BuildDocuments` | backend/rag_engine.py:23-37 | Exactly one document per row, and document i is `MakeDoc` of row i. |
| `App.ValidQuery` | backend/app.py:23 | A query is rejected exactly when it is missing (or null) or the empty string. |
| `App.Recommend` | backend/app.py:19-47 | A missing or empty query gives `Rejected("Query is required", 400)` and no search request. A valid query gives exactly one search, for that query with k = 3, and the answer built from its result. |
| `App.Project` | backend/app.py:33-38 | A recommendation has exactly the keys assessment_name, duration, test_type and url, with each value copied from the document's metadata. remote_support is not exposed. |
| `App.Recommendations` | backend/app.py:29-38 | One recommendation per retrieved document, in retrieval order. Recommendation i is document i's metadata restricted to the four keys. |
| `App.Bullet` | backend/app.py:41 | A bullet starts with `- ` and the name and ends with ` is relevant based on required skills and assessment type.`; nothing else is added. |
| `App.Bullets` | backend/app.py:30-42 | One explanation line per retrieved document. Bullet i names recommendation i, for every name. |
| `App.BulletIsOneLine` | backend/app.py:40-42 | A bullet `- <name> is relevant based on required skills and assessment type.` holds a line break exactly when the name does. |
| `App.SplitAfterPreamble` | backend/app.py:44-46 | Split at line breaks, the preamble gives its sentence and one empty line ahead of whatever follows. |
| `App.Explanation` | backend/app.py:44-47 | The explanation begins with the preamble and is exactly the preamble when there are no lines. `App.ExplanationShape` and `App.ExplanationLines` state the rest. |
| `App.ExplanationShape` | backend/app.py:44-47 | The explanation always begins with the preamble. With no documents it is exactly the preamble. Otherwise it ends with the last document's bullet, so no line break trails it. |
| `App.ExplanationLines` | backend/app.py:32-47 | When names hold no line break, the explanation's lines are the preamble sentence, an empty line, then exactly one bullet per recommendation, in order. With no documents, the third line is empty. |
| `App.RecommendationsComeFromCatalog` | backend/app.py:32-38 | If the search returns documents built from the catalog rows, the handler's requirement on them holds. Every recommendation is then the name, duration, test type and URL of some catalog row. |
| `Text.Join` | backend/app.py:46 | `"\n".join(lines)`: no lines join to the empty string, and a join starts with its first line. `Text.JoinEnds` and `Text.JoinSnoc` state how it ends and how it grows. |
| `Text.JoinEnds` | backend/app.py:46 | A join of one or more lines ends with the last one; no separator trails it. |
| `Text.SplitJoin` | backend/app.py:46 | Joining one or more separator-free lines and splitting again gives the lines back. This is what makes "one line per bullet" exact. |

## Left out

- Reading the catalog with `pd.read_csv` (backend/rag_engine.py:10) is file I/O. Rows are given as a sequence.
- A catalog that lacks one of the seven columns makes the column lookups (backend/rag_engine.py:14-19, 30-34) fail with pandas' KeyError. This is not represented: every `Row` has all seven cells.
- The code does not check for an empty catalog; what `FAISS.from_documents` does with no documents is library behaviour and is not modelled. `BuildDocuments` of no rows is simply no documents.
- The code does not validate k or the query text beyond the handler's `if not query`; the handler always passes k = 3.
- pandas `astype(str)` conversion in the rendered text (for example NaN becoming `"nan"`) is not modelled. The metadata takes the raw cell values, which can be numbers or NaN. The model treats every cell as an already-converted string, so the metadata copies the same string the text renders.
- The sentence-transformer embeddings and the FAISS index (`HuggingFaceEmbeddings`, `FAISS.from_documents`, `similarity_search`) are foreign library code with floating-point similarity. The search is an opaque total function from query and k to documents, and nothing is assumed about its ranking, ties or result length.
- Flask and CORS setup, routing, `request.get_json`, `jsonify`, the `home` route and `app.run` are HTTP plumbing. A request body that is not a JSON object, and a `query` value that is not a string, are not modelled.
- The module-level `vector_db` built at import time is a startup side effect. The index is the search parameter.
- Progress `print`s (backend/rag_engine.py:25) and the retrieval test block (backend/rag_engine.py:50-60) are console output only. The `__main__` block of backend/app.py:55-56 starts the development server and is HTTP plumbing, like `app.run` above.
- `App.ExplanationLines`: one line per recommendation holds only when no assessment name contains a line break, because a name with a line break adds lines. The source does not rule such names out.
