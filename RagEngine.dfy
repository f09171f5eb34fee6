/** The catalog loader of the recommendation engine: every catalog row is
    rendered into one labelled text and paired with a five-key metadata record.
    The embedding and the vector index built from these documents are not
    modelled; the documents are what they are built from. */
module RagEngine {
  import opened Text

  /** One catalog row, each cell already converted to its string form. */
  datatype Row = Row(
    name: string,
    description: string,
    skills: string,
    testType: string,
    duration: string,
    remoteSupport: string,
    url: string)

  /** A document handed to the vector index: its text and its metadata dictionary. */
  datatype Document = Document(pageContent: string, metadata: map<string, string>)

  /** The label in front of each rendered cell: the catalog column's name and ": ". */
  const NameLabel := "Assessment Name: "
  const DescriptionLabel := "Description: "
  const SkillsLabel := "Skills: "
  const TestTypeLabel := "Test Type: "
  const DurationLabel := "Duration: "
  const RemoteLabel := "Remote Testing Support: "

  /** What separates one labelled cell from the next. */
  const Separator := ". "

  /** The labels in rendering order. */
  const Labels: seq<string> :=
    [NameLabel, DescriptionLabel, SkillsLabel, TestTypeLabel, DurationLabel, RemoteLabel]

  /** The keys of every document's metadata. */
  const MetadataKeys: set<string> :=
    {"assessment_name", "url", "duration", "test_type", "remote_support"}

  /** The cells of a row that are rendered, in the order of Labels. */
  function RenderedValues(row: Row): (values: seq<string>)
    ensures |values| == |Labels|
  {
    [row.name, row.description, row.skills, row.testType, row.duration, row.remoteSupport]
  }

  /** The `combined_text` of a row. It opens with the name label and the name,
      ends with the remote-support value (no separator after it), and adds 93
      label and separator characters to the six rendered cells. */
  function Render(row: Row): (text: string)
    ensures NameLabel + row.name <= text
    ensures EndsWith(text, Separator + RemoteLabel + row.remoteSupport)
    ensures |text| == |row.name| + |row.description| + |row.skills| + |row.testType|
                      + |row.duration| + |row.remoteSupport| + 93
  {
    NameLabel + row.name + Separator + DescriptionLabel + row.description + Separator
    + SkillsLabel + row.skills + Separator + TestTypeLabel + row.testType + Separator
    + DurationLabel + row.duration + Separator + RemoteLabel + row.remoteSupport
  }

  /** Reference form of the rendering: each cell behind its label. */
  function LabelledCells(row: Row): (cells: seq<string>)
    ensures |cells| == |Labels|
  {
    var values := RenderedValues(row);
    seq(|Labels|, i requires 0 <= i < |Labels| => Labels[i] + values[i])
  }

  /** The rendered text is the labelled cells of the row, in column order,
      joined with ". ". */
  lemma RenderIsLabelledJoin(row: Row)
    ensures Render(row) == Join(Separator, LabelledCells(row))
  {
    var c := LabelledCells(row);
    var p1 := NameLabel + row.name;
    var p2 := p1 + Separator + DescriptionLabel + row.description;
    var p3 := p2 + Separator + SkillsLabel + row.skills;
    var p4 := p3 + Separator + TestTypeLabel + row.testType;
    var p5 := p4 + Separator + DurationLabel + row.duration;
    var p6 := p5 + Separator + RemoteLabel + row.remoteSupport;
    assert Join(Separator, c[..1]) == p1;
    assert Join(Separator, c[..2]) == p2 by {
      JoinSnoc(Separator, c[..1], c[1]);
      assert c[..1] + [c[1]] == c[..2];
    }
    assert Join(Separator, c[..3]) == p3 by {
      JoinSnoc(Separator, c[..2], c[2]);
      assert c[..2] + [c[2]] == c[..3];
    }
    assert Join(Separator, c[..4]) == p4 by {
      JoinSnoc(Separator, c[..3], c[3]);
      assert c[..3] + [c[3]] == c[..4];
    }
    assert Join(Separator, c[..5]) == p5 by {
      JoinSnoc(Separator, c[..4], c[4]);
      assert c[..4] + [c[4]] == c[..5];
    }
    assert Join(Separator, c) == p6 by {
      JoinSnoc(Separator, c[..5], c[5]);
      assert c[..5] + [c[5]] == c;
    }
  }

  /** The text depends on the six rendered cells alone; the URL is not rendered. */
  lemma RenderDependsOnRenderedCells(a: Row, b: Row)
    requires RenderedValues(a) == RenderedValues(b)
    ensures Render(a) == Render(b)
  {
  }

  /** The document for one row: its rendered text, and metadata holding exactly
      name, URL, duration, test type and remote support, copied from the row.
      Description and skills are not carried over. */
  function MakeDoc(row: Row): (doc: Document)
    ensures doc.pageContent == Render(row)
    ensures doc.metadata.Keys == MetadataKeys
    ensures doc.metadata["assessment_name"] == row.name
    ensures doc.metadata["url"] == row.url
    ensures doc.metadata["duration"] == row.duration
    ensures doc.metadata["test_type"] == row.testType
    ensures doc.metadata["remote_support"] == row.remoteSupport
  {
    Document(
      Render(row),
      map[
        "assessment_name" := row.name,
        "url" := row.url,
        "duration" := row.duration,
        "test_type" := row.testType,
        "remote_support" := row.remoteSupport])
  }

  /** The documents of `create_vector_db`: one per row, in row order. */
  method BuildDocuments(rows: seq<Row>) returns (documents: seq<Document>)
    ensures |documents| == |rows|
    ensures forall i :: 0 <= i < |rows| ==> documents[i] == MakeDoc(rows[i])
  {
    documents := [];
    for i := 0 to |rows|
      invariant |documents| == i
      invariant forall j :: 0 <= j < i ==> documents[j] == MakeDoc(rows[j])
    {
      documents := documents + [MakeDoc(rows[i])];
    }
  }
}
