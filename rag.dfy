/** The retrieval library: embedding requests, the documents table, and storing,
    searching, listing and deleting documents.

    The embedding provider is a parameter (a function from the text sent to an
    embedding, None when the request fails). The documents table is the class
    `DocumentStore`: a sequence of rows with database-assigned ids, whose
    insert, delete, select and `match_documents` calls may fail; how they fail is
    given by the store's constant oracle functions. */
module Rag {
  import opened Wrappers
  import opened JsText
  import opened JsNumber
  import Chunking

  /** An embedding vector (the model never looks inside one). */
  type Embedding = seq<real>

  /** The embedding provider, applied to the text actually sent. */
  type EmbeddingService = string -> Option<Embedding>

  /** A document as callers hand it over. */
  datatype Document = Document(title: string, content: string, category: string)

  /** A row as inserted: the document and the embedding of its content. */
  datatype Row = Row(title: string, content: string, category: string, embedding: Embedding)

  /** A row with the id the database gave it. */
  datatype StoredRow = StoredRow(id: int, row: Row)

  /** What `match_documents` returns for one row; similarity is a float in (0, 1]. */
  datatype SearchResult = SearchResult(id: int, title: string, content: string, category: string, similarity: real)

  /** The arguments of the `match_documents` remote procedure. */
  datatype MatchRequest = MatchRequest(rows: seq<StoredRow>, queryEmbedding: Embedding, matchThreshold: real, matchCount: int)

  const DefaultMaxChunkSize: nat := 500
  const EmbeddingFailure := "Failed to generate embedding"
  /** The prefixes of the errors the store operations throw, before the database's message. */
  const StoreFailure := "Failed to store document: "
  const SearchFailure := "Failed to search documents: "
  const FetchFailure := "Failed to fetch documents: "
  const DeleteFailure := "Failed to delete document: "

  /** `text.replace(/\n/g, ' ')`: every line feed becomes one space. */
  function NormaliseForEmbedding(text: string): (r: string)
    ensures |r| == |text| && '\n' !in r
    ensures forall i :: 0 <= i < |text| ==> r[i] == (if text[i] == '\n' then ' ' else text[i])
    decreases |text|
  {
    if text == [] then [] else [if text[0] == '\n' then ' ' else text[0]] + NormaliseForEmbedding(text[1..])
  }

  /** `generateEmbedding(text)`: the provider's answer for the normalised text; any
      failure becomes the one fixed error message. */
  function GenerateEmbedding(embed: EmbeddingService, text: string): (r: Result<Embedding>)
    ensures r.Ok? <==> embed(NormaliseForEmbedding(text)).Some?
    ensures r.Ok? ==> r.value == embed(NormaliseForEmbedding(text)).value
    ensures r.Err? ==> r.error == EmbeddingFailure
  {
    match embed(NormaliseForEmbedding(text))
    case Some(e) => Ok(e)
    case None => Err(EmbeddingFailure)
  }

  function RowOf(doc: Document, embedding: Embedding): Row {
    Row(doc.title, doc.content, doc.category, embedding)
  }

  /** The `documents` table. */
  class DocumentStore {
    var rows: seq<StoredRow>
    var nextId: int
    /** The error message the database answers an insert of that row with, if any. */
    const insertError: Row -> Option<string>
    /** The error message the database answers `delete().eq('id', id)` with, if any. */
    const deleteError: Num -> Option<string>
    /** The error message the database answers `select('*').eq('category', c)` with, if any. */
    const selectError: string -> Option<string>
    /** The `match_documents` procedure: the rows it returns, or an error message. */
    const matchDocuments: MatchRequest -> Result<seq<SearchResult>>

    /** Ids grow with insertion order and are below the next id to hand out. */
    predicate Valid()
      reads this
    {
      && IdsIncrease(rows)
      && (forall i :: 0 <= i < |rows| ==> rows[i].id < nextId)
    }

    /** The rows without their ids, in insertion order. */
    function Contents(): (c: seq<Row>)
      reads `rows
      ensures |c| == |rows| && forall i :: 0 <= i < |rows| ==> c[i] == rows[i].row
    {
      RowsOf(rows)
    }

    constructor (insertError: Row -> Option<string>, deleteError: Num -> Option<string>,
                 selectError: string -> Option<string>,
                 matchDocuments: MatchRequest -> Result<seq<SearchResult>>)
      ensures Valid() && rows == []
      ensures this.insertError == insertError && this.deleteError == deleteError
      ensures this.selectError == selectError && this.matchDocuments == matchDocuments
    {
      rows := [];
      nextId := 1;
      this.insertError := insertError;
      this.deleteError := deleteError;
      this.selectError := selectError;
      this.matchDocuments := matchDocuments;
    }

    /** `insert(row)`: on success the row is appended under a fresh id. */
    method Insert(row: Row) returns (err: Option<string>)
      requires Valid()
      modifies this
      ensures Valid()
      ensures err == insertError(row)
      ensures err.None? ==> Contents() == old(Contents()) + [row] && rows[..|rows| - 1] == old(rows)
      ensures err.Some? ==> rows == old(rows) && nextId == old(nextId)
    {
      err := insertError(row);
      if err.None? {
        rows := rows + [StoredRow(nextId, row)];
        nextId := nextId + 1;
      }
    }

    /** `delete().eq('id', id)`: on success every row with that id is gone (NaN
        matches none). */
    method Delete(id: Num) returns (err: Option<string>)
      requires Valid()
      modifies this
      ensures Valid()
      ensures err == deleteError(id)
      ensures err.Some? ==> rows == old(rows)
      ensures err.None? ==> rows == WithoutId(old(rows), id)
    {
      err := deleteError(id);
      if err.None? {
        WithoutIdKeepsOrder(rows, id);
        rows := WithoutId(rows, id);
      }
    }
  }

  /** The rows of a table, without their ids. */
  function RowsOf(rows: seq<StoredRow>): (c: seq<Row>)
    ensures |c| == |rows| && forall i :: 0 <= i < |rows| ==> c[i] == rows[i].row
  {
    seq(|rows|, i requires 0 <= i < |rows| => rows[i].row)
  }

  /** The rows whose id differs from `id`, in order. */
  function WithoutId(rows: seq<StoredRow>, id: Num): (r: seq<StoredRow>)
    ensures forall x :: x in r <==> x in rows && !(id.Int? && x.id == id.value)
    decreases |rows|
  {
    if rows == [] then []
    else if id.Int? && rows[0].id == id.value then WithoutId(rows[1..], id)
    else [rows[0]] + WithoutId(rows[1..], id)
  }

  /** Ids that grow with the position in the table. */
  predicate IdsIncrease(rows: seq<StoredRow>) {
    forall i, j :: 0 <= i < j < |rows| ==> rows[i].id < rows[j].id
  }

  /** Removing rows keeps the ids increasing. */
  lemma {:induction false} WithoutIdKeepsOrder(rows: seq<StoredRow>, id: Num)
    requires IdsIncrease(rows)
    ensures IdsIncrease(WithoutId(rows, id))
    decreases |rows|
  {
    if rows != [] {
      var tail := WithoutId(rows[1..], id);
      assert IdsIncrease(rows[1..]) by {
        forall i, j | 0 <= i < j < |rows[1..]| ensures rows[1..][i].id < rows[1..][j].id {
          assert rows[1..][i] == rows[i + 1] && rows[1..][j] == rows[j + 1];
        }
      }
      WithoutIdKeepsOrder(rows[1..], id);
      if !(id.Int? && rows[0].id == id.value) {
        AfterFirst(rows, id);
        IncreasingCons(rows[0], tail);
      }
    }
  }

  /** The rows kept from after the first row have larger ids than the first. */
  lemma AfterFirst(rows: seq<StoredRow>, id: Num)
    requires rows != [] && IdsIncrease(rows)
    ensures forall k :: 0 <= k < |WithoutId(rows[1..], id)| ==> rows[0].id < WithoutId(rows[1..], id)[k].id
  {
    var tail := WithoutId(rows[1..], id);
    forall k | 0 <= k < |tail| ensures rows[0].id < tail[k].id {
      assert tail[k] in rows[1..];
      var m :| 0 <= m < |rows[1..]| && rows[1..][m] == tail[k];
      assert rows[m + 1] == tail[k];
    }
  }

  lemma IncreasingCons(x: StoredRow, tail: seq<StoredRow>)
    requires IdsIncrease(tail)
    requires forall k :: 0 <= k < |tail| ==> x.id < tail[k].id
    ensures IdsIncrease([x] + tail)
  {
    var r := [x] + tail;
    forall i, j | 0 <= i < j < |r| ensures r[i].id < r[j].id {
      assert r[j] == tail[j - 1];
      if i > 0 { assert r[i] == tail[i - 1]; }
    }
  }

  /** What `storeDocument(doc)` makes of a document: the row it inserts, or the
      error it throws. */
  function StoreOne(store: DocumentStore, embed: EmbeddingService, doc: Document): (r: Result<Row>)
    ensures r.Ok? ==> GenerateEmbedding(embed, doc.content).Ok?
                      && r.value == RowOf(doc, GenerateEmbedding(embed, doc.content).value)
                      && store.insertError(r.value).None?
  {
    match GenerateEmbedding(embed, doc.content)
    case Err(m) => Err(m)
    case Ok(e) =>
      match store.insertError(RowOf(doc, e))
      case Some(m) => Err(StoreFailure + m)
      case None => Ok(RowOf(doc, e))
  }

  /** `storeDocument(doc)`: embed the document's own content, then insert the row.
      A failed embedding inserts nothing. */
  method StoreDocument(store: DocumentStore, embed: EmbeddingService, doc: Document) returns (r: Result<()>)
    requires store.Valid()
    modifies store
    ensures store.Valid()
    ensures r.Ok? <==> StoreOne(store, embed, doc).Ok?
    ensures r.Err? ==> r.error == StoreOne(store, embed, doc).error && store.rows == old(store.rows)
    ensures r.Ok? ==> store.Contents() == old(store.Contents()) + [StoreOne(store, embed, doc).value]
  {
    var embedding := GenerateEmbedding(embed, doc.content);
    if embedding.Err? {
      return Err(embedding.error);
    }
    var err := store.Insert(RowOf(doc, embedding.value));
    if err.Some? {
      return Err(StoreFailure + err.value);
    }
    return Ok(());
  }

  /** The title of chunk `i` (from 0) of `n`: "{title} ({i+1}/{n})" when there are
      several chunks, the title itself otherwise. */
  function ChunkTitle(title: string, i: nat, n: nat): string {
    if n > 1 then title + " (" + NatToString(i + 1) + "/" + NatToString(n) + ")" else title
  }

  /** The documents `storeDocumentWithChunks` stores, one per chunk, in order. */
  function ChunkDocuments(title: string, chunks: seq<string>, category: string): (docs: seq<Document>)
    ensures |docs| == |chunks|
    ensures forall i :: 0 <= i < |chunks| ==>
              docs[i] == Document(ChunkTitle(title, i, |chunks|), chunks[i], category)
  {
    seq(|chunks|, i requires 0 <= i < |chunks| => Document(ChunkTitle(title, i, |chunks|), chunks[i], category))
  }

  /** Storing documents one after another until one fails: the rows inserted, and
      the error of the first failure if there is one. */
  function StoreAll(store: DocumentStore, embed: EmbeddingService, docs: seq<Document>): (out: (seq<Row>, Option<string>))
    decreases |docs|
  {
    if docs == [] then ([], None)
    else match StoreOne(store, embed, docs[0])
      case Err(m) => ([], Some(m))
      case Ok(row) =>
        var rest := StoreAll(store, embed, docs[1..]);
        ([row] + rest.0, rest.1)
  }

  /** StoreAll inserts the documents in order up to the first failure and stops
      there: the earlier rows stay, nothing after the failing document is tried,
      and without a failure every document is stored. */
  lemma {:induction false} StoreAllStopsAtFirstFailure(store: DocumentStore, embed: EmbeddingService, docs: seq<Document>)
    ensures var (rows, err) := StoreAll(store, embed, docs);
      && |rows| <= |docs|
      && (forall i :: 0 <= i < |rows| ==> StoreOne(store, embed, docs[i]) == Ok(rows[i]))
      && (err.None? <==> |rows| == |docs|)
      && (err.Some? ==> StoreOne(store, embed, docs[|rows|]) == Err(err.value))
    decreases |docs|
  {
    if docs != [] {
      StoreAllStopsAtFirstFailure(store, embed, docs[1..]);
      var (rows, err) := StoreAll(store, embed, docs);
      if StoreOne(store, embed, docs[0]).Ok? {
        var rest := StoreAll(store, embed, docs[1..]);
        forall i | 0 <= i < |rows| ensures StoreOne(store, embed, docs[i]) == Ok(rows[i]) {
          if i > 0 {
            assert rows[i] == rest.0[i - 1] && docs[i] == docs[1..][i - 1];
          }
        }
        if err.Some? {
          assert docs[|rows|] == docs[1..][|rest.0|];
        }
      }
    }
  }

  lemma {:induction false} StoreAllPrefix(store: DocumentStore, embed: EmbeddingService, docs: seq<Document>, i: nat)
    requires i < |docs|
    requires StoreAll(store, embed, docs[..i]).1.None?
    ensures StoreAll(store, embed, docs[..i + 1]) ==
      (match StoreOne(store, embed, docs[i])
       case Err(m) => (StoreAll(store, embed, docs[..i]).0, Some(m))
       case Ok(row) => (StoreAll(store, embed, docs[..i]).0 + [row], None))
    decreases i
  {
    if i > 0 {
      var longer := docs[..i + 1];
      var shorter := docs[..i];
      assert longer[1..] == docs[1..][..i];
      assert shorter[1..] == docs[1..][..i - 1];
      assert longer[0] == docs[0] && shorter[0] == docs[0];
      var first := StoreOne(store, embed, docs[0]);
      assert first.Ok?;
      var tailShort := StoreAll(store, embed, docs[1..][..i - 1]);
      assert StoreAll(store, embed, shorter) == ([first.value] + tailShort.0, tailShort.1);
      StoreAllPrefix(store, embed, docs[1..], i - 1);
      assert docs[1..][i - 1] == docs[i];
      var tailLong := StoreAll(store, embed, docs[1..][..i]);
      assert StoreAll(store, embed, longer) == ([first.value] + tailLong.0, tailLong.1);
      match StoreOne(store, embed, docs[i])
      case Err(m) =>
      case Ok(row) =>
        assert [first.value] + (tailShort.0 + [row]) == [first.value] + tailShort.0 + [row];
    } else {
      var one := docs[..1];
      assert docs[..0] == [];
      assert one[0] == docs[0] && one[1..] == [];
      assert StoreAll(store, embed, one[1..]) == ([], None);
      var empty: seq<Row> := [];
      assert StoreAll(store, embed, docs[..0]) == (empty, None);
      match StoreOne(store, embed, docs[0])
      case Err(m) =>
        assert StoreAll(store, embed, one) == (empty, Some(m));
      case Ok(row) =>
        assert StoreAll(store, embed, one) == ([row] + empty, None);
        assert [row] + empty == empty + [row];
    }
  }

  /** `storeDocumentWithChunks(title, content, category)`: the content is chunked
      and each chunk stored in order under its chunk title; the first failure is
      rethrown and later chunks are not stored. */
  method StoreDocumentWithChunks(store: DocumentStore, embed: EmbeddingService,
                                 title: string, content: string, category: string) returns (r: Result<()>)
    requires store.Valid()
    modifies store
    ensures store.Valid()
    ensures var docs := ChunkDocuments(title, Chunking.ChunksOf(content, DefaultMaxChunkSize), category);
      && store.Contents() == old(store.Contents()) + StoreAll(store, embed, docs).0
      && (r.Ok? <==> StoreAll(store, embed, docs).1.None?)
      && (r.Err? ==> r.error == StoreAll(store, embed, docs).1.value)
  {
    var chunks := Chunking.SplitTextIntoChunks(content, DefaultMaxChunkSize);
    ghost var docs := ChunkDocuments(title, chunks, category);
    var i := 0;
    while i < |chunks|
      invariant 0 <= i <= |chunks|
      invariant store.Valid()
      invariant StoreAll(store, embed, docs[..i]).1.None?
      invariant store.Contents() == old(store.Contents()) + StoreAll(store, embed, docs[..i]).0
    {
      var chunkTitle := if |chunks| > 1 then title + " (" + NatToString(i + 1) + "/" + NatToString(|chunks|) + ")" else title;
      assert chunkTitle == ChunkTitle(title, i, |chunks|);
      assert Document(chunkTitle, chunks[i], category) == docs[i];
      ghost var before := store.Contents();
      ghost var prev := StoreAll(store, embed, docs[..i]).0;
      var stored := StoreDocument(store, embed, Document(chunkTitle, chunks[i], category));
      if stored.Err? {
        StoreAllAfterFailure(store, embed, docs, i);
        return stored;
      }
      StoreAllPrefix(store, embed, docs, i);
      StoreStep(old(store.Contents()), before, store.Contents(), prev, StoreOne(store, embed, docs[i]).value);
      i := i + 1;
    }
    assert docs[..i] == docs;
    return Ok(());
  }

  lemma StoreStep(base: seq<Row>, before: seq<Row>, after: seq<Row>, prev: seq<Row>, row: Row)
    requires before == base + prev && after == before + [row]
    ensures after == base + (prev + [row])
  {
  }

  /** Once the documents before `i` are all stored and document `i` fails, the
      whole run ends with those rows and that failure. */
  lemma {:induction false} StoreAllAfterFailure(store: DocumentStore, embed: EmbeddingService, docs: seq<Document>, i: nat)
    requires i < |docs|
    requires StoreAll(store, embed, docs[..i]).1.None?
    requires StoreOne(store, embed, docs[i]).Err?
    ensures StoreAll(store, embed, docs) == (StoreAll(store, embed, docs[..i]).0, Some(StoreOne(store, embed, docs[i]).error))
    decreases i
  {
    if i > 0 {
      assert docs[..i][1..] == docs[1..][..i - 1];
      assert docs[..i][0] == docs[0];
      StoreAllAfterFailure(store, embed, docs[1..], i - 1);
    }
  }

  lemma {:induction false} NatToStringInjective(a: nat, b: nat)
    requires NatToString(a) == NatToString(b)
    ensures a == b
  {
    RadixValueOfNatToString(a);
    RadixValueOfNatToString(b);
  }

  /** Chunk titles of one document are pairwise distinct. */
  lemma ChunkTitlesDistinct(title: string, i: nat, j: nat, n: nat)
    requires i < n && j < n && i != j
    ensures ChunkTitle(title, i, n) != ChunkTitle(title, j, n)
  {
    if ChunkTitle(title, i, n) == ChunkTitle(title, j, n) {
      var a := NatToString(i + 1);
      var b := NatToString(j + 1);
      var tail := "/" + NatToString(n) + ")";
      var x := title + " (" + a + tail;
      var y := title + " (" + b + tail;
      assert x == ChunkTitle(title, i, n) && y == ChunkTitle(title, j, n);
      assert |a| == |b|;
      assert a == x[|title| + 2..|title| + 2 + |a|];
      assert b == y[|title| + 2..|title| + 2 + |b|];
      NatToStringInjective(i + 1, j + 1);
    }
  }

  /** `searchSimilarDocuments(query, matchThreshold, matchCount)`: the query is
      embedded and `match_documents` answers; each failure is an error. */
  function SearchSimilarDocuments(store: DocumentStore, embed: EmbeddingService, query: string,
                                  matchThreshold: real, matchCount: int): (r: Result<seq<SearchResult>>)
    reads store
    ensures GenerateEmbedding(embed, query).Err? ==> r == Err(EmbeddingFailure)
    ensures GenerateEmbedding(embed, query).Ok? ==>
      var answer := store.matchDocuments(MatchRequest(store.rows, GenerateEmbedding(embed, query).value, matchThreshold, matchCount));
      && (r.Ok? <==> answer.Ok?)
      && (r.Ok? ==> r.value == answer.value)
      && (r.Err? ==> r.error == SearchFailure + answer.error)
  {
    match GenerateEmbedding(embed, query)
    case Err(m) => Err(m)
    case Ok(e) =>
      match store.matchDocuments(MatchRequest(store.rows, e, matchThreshold, matchCount))
      case Err(m) => Err(SearchFailure + m)
      case Ok(results) => Ok(results)
  }

  /** The rows of a category, newest first. */
  function NewestFirstInCategory(rows: seq<StoredRow>, category: string): (r: seq<StoredRow>)
    ensures forall x :: x in r <==> x in rows && x.row.category == category
    decreases |rows|
  {
    if rows == [] then []
    else
      var rest := NewestFirstInCategory(rows[1..], category);
      if rows[0].row.category == category then rest + [rows[0]] else rest
  }

  predicate IdsDescending(rows: seq<StoredRow>) {
    forall i, j :: 0 <= i < j < |rows| ==> rows[i].id > rows[j].id
  }

  lemma {:induction false} NewestFirstDescending(rows: seq<StoredRow>, category: string)
    requires forall i, j :: 0 <= i < j < |rows| ==> rows[i].id < rows[j].id
    ensures IdsDescending(NewestFirstInCategory(rows, category))
    decreases |rows|
  {
    if rows != [] {
      NewestFirstDescending(rows[1..], category);
      var rest := NewestFirstInCategory(rows[1..], category);
      var r := NewestFirstInCategory(rows, category);
      if rows[0].row.category == category {
        forall i, j | 0 <= i < j < |r| ensures r[i].id > r[j].id {
          if j == |r| - 1 {
            assert r[j] == rows[0];
            assert r[i] == rest[i] && rest[i] in rest;
            assert r[i] in rows[1..];
            var k :| 0 <= k < |rows[1..]| && rows[1..][k] == r[i];
            assert rows[k + 1] == r[i];
            assert rows[0].id < rows[k + 1].id;
          } else {
            assert r[i] == rest[i] && r[j] == rest[j];
          }
        }
      }
    }
  }

  /** `getDocumentsByCategory(category)`: the rows of that category, newest first
      (ordering by creation time, which follows insertion order). */
  function GetDocumentsByCategory(store: DocumentStore, category: string): (r: Result<seq<StoredRow>>)
    reads store
    requires store.Valid()
    ensures r.Err? <==> store.selectError(category).Some?
    ensures r.Err? ==> r.error == FetchFailure + store.selectError(category).value
    ensures r.Ok? ==> (forall x :: x in r.value <==> x in store.rows && x.row.category == category)
                      && IdsDescending(r.value)
  {
    match store.selectError(category)
    case Some(m) => Err(FetchFailure + m)
    case None =>
      NewestFirstDescending(store.rows, category);
      Ok(NewestFirstInCategory(store.rows, category))
  }

  /** `deleteDocument(id)`: every row with that id is removed, or the error is thrown
      and nothing changes. */
  method DeleteDocument(store: DocumentStore, id: Num) returns (r: Result<()>)
    requires store.Valid()
    modifies store
    ensures store.Valid()
    ensures r.Err? <==> store.deleteError(id).Some?
    ensures r.Err? ==> r.error == DeleteFailure + store.deleteError(id).value
                       && store.rows == old(store.rows)
    ensures r.Ok? ==> forall x :: x in store.rows <==> x in old(store.rows) && !(id.Int? && x.id == id.value)
  {
    var err := store.Delete(id);
    if err.Some? {
      return Err(DeleteFailure + err.value);
    }
    return Ok(());
  }
}
