/**
 * The retrieval index `SimpleRAG` of rag_helper.py: CSV rows flattened into
 * text documents, top-k retrieval by similarity score, and the context block
 * handed to the language model.
 *
 * The TF-IDF vectoriser and cosine similarity are an abstract `Scorer`;
 * reading the CSV files is replaced by the tables they hold.
 */
module RagHelper {
  import opened Wrappers
  import opened Strings
  import opened Sequences
  import opened Ranking

  /** One cell of a CSV row: its column name and its value, `None` where pandas reads a missing value. */
  datatype Cell = Cell(column: string, value: Option<string>)

  /** A row, its cells in the file's column order. */
  type Row = seq<Cell>

  /** The rows of one CSV file. */
  type Table = seq<Row>

  /** One source path: `None` when the file does not exist, otherwise the table it holds. */
  type Source = Option<Table>

  /** The similarity of document `i` of `docs` to a query (TF-IDF fitted on `docs`, then cosine). */
  type Scorer = (seq<string>, string, nat) -> real

  /** The text returned when nothing was retrieved. */
  const NoDataMessage := "No relevant housing or applicant data found."

  /** The `"col: value"` fragment of one present cell. */
  function Fragment(column: string, value: string): string {
    column + ": " + value
  }

  /** The fragments of a row's present cells, in column order; missing cells give none. */
  function Fragments(row: Row): seq<string>
    decreases |row|
  {
    if row == [] then []
    else
      var c := row[|row| - 1];
      var rest := Fragments(row[..|row| - 1]);
      match c.value
      case None => rest
      case Some(v) => rest + [Fragment(c.column, v)]
  }

  /** The document of one row: its fragments joined by single spaces. */
  function Flatten(row: Row): string {
    Join(" ", Fragments(row))
  }

  /** The positions of a row's present cells, in increasing order. */
  function PresentColumns(row: Row): (p: seq<int>)
    ensures forall k :: 0 <= k < |p| ==> 0 <= p[k] < |row| && row[p[k]].value.Some?
    ensures forall k, l :: 0 <= k < l < |p| ==> p[k] < p[l]
    ensures forall j :: 0 <= j < |row| && row[j].value.Some? ==> j in p
    decreases |row|
  {
    if row == [] then []
    else
      var rest := PresentColumns(row[..|row| - 1]);
      if row[|row| - 1].value.Some? then rest + [|row| - 1] else rest
  }

  /**
   * The fragments of a row are exactly the `"col: value"` fragments of its
   * present cells, one per present cell, in column order.
   */
  lemma {:induction false} FragmentsArePresentCells(row: Row)
    ensures var p := PresentColumns(row);
      && |Fragments(row)| == |p|
      && forall k :: 0 <= k < |p| ==> Fragments(row)[k] == Fragment(row[p[k]].column, row[p[k]].value.value)
    decreases |row|
  {
    if row != [] {
      var init := row[..|row| - 1];
      FragmentsArePresentCells(init);
      assert forall j :: 0 <= j < |init| ==> init[j] == row[j];
    }
  }

  /** The fragments of two runs of cells are the fragments of the first, then those of the second. */
  lemma {:induction false} FragmentsAppend(a: Row, b: Row)
    ensures Fragments(a + b) == Fragments(a) + Fragments(b)
    decreases |b|
  {
    if b == [] {
      assert a + b == a;
    } else {
      var ab := a + b;
      assert ab[..|ab| - 1] == a + b[..|b| - 1];
      assert ab[|ab| - 1] == b[|b| - 1];
      FragmentsAppend(a, b[..|b| - 1]);
    }
  }

  /** A missing cell, wherever it stands in the row, adds nothing to the document. */
  lemma FlattenSkipsMissing(a: Row, column: string, b: Row)
    ensures Fragments(a + [Cell(column, None)] + b) == Fragments(a + b)
    ensures Flatten(a + [Cell(column, None)] + b) == Flatten(a + b)
  {
    var missing: Row := [Cell(column, None)];
    assert a + [Cell(column, None)] + b == (a + missing) + b;
    FragmentsAppend(a + missing, b);
    FragmentsAppend(a, missing);
    FragmentsAppend(a, b);
    assert missing[..0] == [];
  }

  /**
   * The document of two runs of cells, each with a present value, is the
   * first run's document, one space, then the second's.
   */
  lemma FlattenConcat(a: Row, b: Row)
    requires Fragments(a) != [] && Fragments(b) != []
    ensures Flatten(a + b) == Flatten(a) + " " + Flatten(b)
  {
    FragmentsAppend(a, b);
    JoinAppend(" ", Fragments(a), Fragments(b));
  }

  /** A row whose every value is missing flattens to the empty document. */
  lemma {:induction false} FlattenAllMissing(row: Row)
    requires forall j :: 0 <= j < |row| ==> row[j].value.None?
    ensures Fragments(row) == [] && Flatten(row) == ""
    decreases |row|
  {
    if row != [] {
      var init := row[..|row| - 1];
      assert forall j :: 0 <= j < |init| ==> init[j] == row[j];
      FlattenAllMissing(init);
    }
  }

  /** The rows of every file that exists, in path order, then row order. */
  function AllRows(sources: seq<Source>): seq<Row>
    decreases |sources|
  {
    if sources == [] then []
    else
      var rest := AllRows(sources[..|sources| - 1]);
      match sources[|sources| - 1]
      case None => rest
      case Some(rows) => rest + rows
  }

  /** One document per row, in row order. */
  function Documents(rows: seq<Row>): seq<string> {
    seq(|rows|, i requires 0 <= i < |rows| => Flatten(rows[i]))
  }

  /** The corpus `SimpleRAG` builds from the given sources. */
  function Corpus(sources: seq<Source>): seq<string> {
    Documents(AllRows(sources))
  }

  /** The number of rows in the files that exist. */
  function RowCount(sources: seq<Source>): nat
    decreases |sources|
  {
    if sources == [] then 0
    else
      match sources[0]
      case None => RowCount(sources[1..])
      case Some(rows) => |rows| + RowCount(sources[1..])
  }

  /** The rows of two runs of sources are the two runs' rows concatenated. */
  lemma {:induction false} AllRowsAppend(a: seq<Source>, b: seq<Source>)
    ensures AllRows(a + b) == AllRows(a) + AllRows(b)
    decreases |b|
  {
    if b == [] {
      assert a + b == a;
    } else {
      var b', last := b[..|b| - 1], b[|b| - 1];
      var ab := a + b;
      assert ab[..|ab| - 1] == a + b';
      assert ab[|ab| - 1] == last;
      AllRowsAppend(a, b');
      match last {
        case None =>
        case Some(rows) =>
          assert AllRows(ab) == AllRows(a + b') + rows;
          assert AllRows(b) == AllRows(b') + rows;
      }
    }
  }

  /** The corpus has exactly one document per row of every file that exists. */
  lemma {:induction false} CorpusSize(sources: seq<Source>)
    ensures |Corpus(sources)| == RowCount(sources)
    decreases |sources|
  {
    if sources != [] {
      var rest := sources[1..];
      assert sources == [sources[0]] + rest;
      AllRowsAppend([sources[0]], rest);
      assert [sources[0]][..0] == [];
      CorpusSize(rest);
    }
  }

  /** A path whose file does not exist contributes nothing; loading goes on with the next path. */
  lemma CorpusSkipsMissing(a: seq<Source>, b: seq<Source>)
    ensures Corpus(a + [None] + b) == Corpus(a + b)
  {
    var missing: seq<Source> := [None];
    assert a + [None] + b == (a + missing) + b;
    AllRowsAppend(a + missing, b);
    AllRowsAppend(a, missing);
    AllRowsAppend(a, b);
    assert missing[..0] == [];
  }

  /**
   * Row `r` of source `p` is document number `RowCount(sources[..p]) + r`:
   * documents come in path order, then row order.
   */
  lemma CorpusPosition(sources: seq<Source>, p: int, r: int)
    requires 0 <= p < |sources| && sources[p].Some? && 0 <= r < |sources[p].value|
    ensures RowCount(sources[..p]) + r < |Corpus(sources)|
    ensures Corpus(sources)[RowCount(sources[..p]) + r] == Flatten(sources[p].value[r])
  {
    var before, here, after := sources[..p], sources[p], sources[p + 1..];
    assert sources == before + [here] + after;
    AllRowsAppend(before + [here], after);
    AllRowsAppend(before, [here]);
    assert [here][..0] == [];
    CorpusSize(before);
    var rows := AllRows(sources);
    assert rows == AllRows(before) + here.value + AllRows(after);
    assert rows[|AllRows(before)| + r] == here.value[r];
  }

  /** The corpus is empty exactly when every file is missing or has no rows. */
  lemma {:induction false} CorpusEmpty(sources: seq<Source>)
    ensures Corpus(sources) == [] <==> forall p :: 0 <= p < |sources| ==> sources[p] == None || sources[p] == Some([])
    decreases |sources|
  {
    if sources != [] {
      var init := sources[..|sources| - 1];
      CorpusEmpty(init);
      assert forall p :: 0 <= p < |init| ==> init[p] == sources[p];
    }
  }

  /** The similarity of every document to `query`. */
  function Similarities(docs: seq<string>, query: string, score: Scorer): (sims: seq<real>)
    ensures |sims| == |docs|
  {
    seq(|docs|, i requires 0 <= i < |docs| => score(docs, query, i))
  }

  /** Python's `"\n\n".join([f"- {r}" for r in results])`. */
  function Bulleted(results: seq<string>): string {
    Join("\n\n", seq(|results|, i requires 0 <= i < |results| => "- " + results[i]))
  }

  class SimpleRag {
    /** The flattened documents, in load order. */
    var docs: seq<string>
    /** Whether the term-weight model was fitted (there was at least one document). */
    var fitted: bool

    /** Loads every source in order, skipping missing files, one document per row. */
    constructor (sources: seq<Source>)
      ensures docs == Corpus(sources)
      ensures fitted <==> docs != []
    {
      docs := [];
      fitted := false;
      new;
      var p := 0;
      while p < |sources|
        invariant 0 <= p <= |sources|
        invariant docs == Corpus(sources[..p])
        invariant !fitted
      {
        assert sources[..p + 1][..p] == sources[..p];
        ghost var before := AllRows(sources[..p]);
        match sources[p] {
          case None =>
          case Some(rows) =>
            var r := 0;
            while r < |rows|
              invariant 0 <= r <= |rows|
              invariant docs == Documents(before + rows[..r])
              invariant !fitted
            {
              assert before + rows[..r + 1] == (before + rows[..r]) + [rows[r]];
              docs := docs + [Flatten(rows[r])];
              r := r + 1;
            }
            assert rows[..r] == rows;
        }
        p := p + 1;
      }
      assert sources[..p] == sources;
      if docs != [] {
        fitted := true;
      }
    }

    /**
     * The indices `retrieve` picks: the `top_k` highest-scoring documents,
     * highest first, none repeated, none left out scoring higher.
     */
    function TopDocuments(query: string, topK: int, score: Scorer): (t: seq<int>)
      reads this
      requires topK >= 1
      ensures |t| == Min(topK, |docs|)
      ensures Indices(|docs|, t) && Distinct(t)
      ensures var sims := Similarities(docs, query, score);
        && Descending(sims, t)
        && forall i, j :: 0 <= i < |t| && 0 <= j < |docs| && j !in t ==> sims[t[i]] >= sims[j]
    {
      if docs == [] then []
      else
        var sims := Similarities(docs, query, score);
        var idx := ArgSort(sims);
        TopKSelection(sims, idx, topK);
        TopOf(idx, topK)
    }

    /** `retrieve(query, top_k)`: the texts of `TopDocuments`, in that order. */
    function Retrieve(query: string, topK: int, score: Scorer): (r: seq<string>)
      reads this
      requires topK >= 1
      ensures |r| == Min(topK, |docs|)
      ensures r == [] <==> docs == []
      ensures forall i :: 0 <= i < |r| ==> r[i] in docs
      ensures forall i :: 0 <= i < |r| ==> r[i] == docs[TopDocuments(query, topK, score)[i]]
    {
      var t, d := TopDocuments(query, topK, score), docs;
      seq(|t|, i requires 0 <= i < |t| => d[t[i]])
    }

    /**
     * `build_context(query, top_k)`: the fixed fallback sentence exactly when
     * nothing was retrieved, otherwise the results as a bulleted block.
     */
    function BuildContext(query: string, topK: int, score: Scorer): (r: string)
      reads this
      requires topK >= 1
      ensures r == NoDataMessage <==> docs == []
      ensures docs != [] ==> r == Bulleted(Retrieve(query, topK, score))
      ensures docs != [] ==> "- " + Retrieve(query, topK, score)[0] <= r
    {
      var results := Retrieve(query, topK, score);
      if results == [] then NoDataMessage
      else
        var bullets := seq(|results|, i requires 0 <= i < |results| => "- " + results[i]);
        JoinStartsWithFirst("\n\n", bullets);
        var block := Join("\n\n", bullets);
        assert block[0] == '-' && NoDataMessage[0] == 'N';
        block
    }
  }
}
