/** The admin API `/api/documents`: `GET` searches or lists by category, `POST`
    stores a document with chunking, `DELETE` removes one by id. The query string
    of the request URL and the parsed JSON body are parameters; each thrown error
    becomes a 500 answer with a fixed message. */
module DocumentsRoute {
  import opened Wrappers
  import opened JsNumber
  import FormUrlencoded
  import Chunking
  import opened Rag

  const NeedQueryMessage := "カテゴリまたは検索クエリが必要です。"
  const FetchFailedMessage := "ドキュメントの取得に失敗しました。"
  const FieldsRequiredMessage := "タイトル、内容、カテゴリは必須です。"
  const SavedMessage := "ドキュメントが正常に保存されました。"
  const SaveFailedMessage := "ドキュメントの保存に失敗しました。"
  const NeedIdMessage := "ドキュメントIDが必要です。"
  const DeletedMessage := "ドキュメントが正常に削除されました。"
  const DeleteFailedMessage := "ドキュメントの削除に失敗しました。"

  /** The threshold and count of the admin search. */
  const SearchThreshold: real := 0.5
  const SearchCount := 10

  datatype GetResponse =
    | SearchFound(results: seq<SearchResult>)
    | CategoryListed(documents: seq<StoredRow>)
    | GetFailed(status: nat, error: string)

  /** `{ message, success: true }`, or `{ error }` with a status. */
  datatype Reply = Done(message: string) | Failed(status: nat, error: string)

  /** The fields of the JSON body of `POST`; a field that is absent is None. */
  datatype PostBody = PostBody(title: Option<string>, content: Option<string>, category: Option<string>)

  /** JavaScript truthiness of a string that may be missing. */
  predicate Truthy(s: Option<string>) {
    s.Some? && s.value != ""
  }

  /** `GET /api/documents?{search}`: a truthy `query` searches (threshold 0.5,
      10 results) whatever `category` says; otherwise a truthy `category` lists
      that category; otherwise 400 without touching the store. */
  function DocumentsGet(store: DocumentStore, embed: EmbeddingService, search: string): (r: GetResponse)
    reads store
    requires store.Valid()
    ensures var ps := FormUrlencoded.FromSearch(search);
      var query := FormUrlencoded.Get(ps, "query");
      var category := FormUrlencoded.Get(ps, "category");
      && (Truthy(query) ==>
            var found := SearchSimilarDocuments(store, embed, query.value, SearchThreshold, SearchCount);
            r == if found.Ok? then SearchFound(found.value) else GetFailed(500, FetchFailedMessage))
      && (!Truthy(query) && Truthy(category) ==>
            var listed := GetDocumentsByCategory(store, category.value);
            && (r.CategoryListed? <==> listed.Ok?)
            && (r.CategoryListed? ==>
                  && r.documents == listed.value && IdsDescending(r.documents)
                  && forall x :: x in r.documents <==> x in store.rows && x.row.category == category.value)
            && (r.GetFailed? ==> r == GetFailed(500, FetchFailedMessage)))
      && (!Truthy(query) && !Truthy(category) ==> r == GetFailed(400, NeedQueryMessage))
    ensures r.GetFailed? ==> r.status in {400, 500}
  {
    var ps := FormUrlencoded.FromSearch(search);
    var query := FormUrlencoded.Get(ps, "query");
    var category := FormUrlencoded.Get(ps, "category");
    if query.Some? && query.value != "" then
      match SearchSimilarDocuments(store, embed, query.value, SearchThreshold, SearchCount)
      case Ok(results) => SearchFound(results)
      case Err(_) => GetFailed(500, FetchFailedMessage)
    else if category.Some? && category.value != "" then
      match GetDocumentsByCategory(store, category.value)
      case Ok(documents) => CategoryListed(documents)
      case Err(_) => GetFailed(500, FetchFailedMessage)
    else GetFailed(400, NeedQueryMessage)
  }

  /** The document a `POST` body describes, when all three fields are truthy. */
  function PostedDocument(body: PostBody): (d: Option<Document>)
    ensures d.Some? <==> Truthy(body.title) && Truthy(body.content) && Truthy(body.category)
    ensures d.Some? ==> d.value == Document(body.title.value, body.content.value, body.category.value)
                        && d.value.title != "" && d.value.content != "" && d.value.category != ""
  {
    if !Truthy(body.title) || !Truthy(body.content) || !Truthy(body.category) then None
    else Some(Document(body.title.value, body.content.value, body.category.value))
  }

  /** `POST /api/documents`. None stands for a body on which `request.json()` or the
      destructuring throws: one that is not JSON, or the JSON `null`; it is a 500.
      A missing or empty field is a 400 and stores nothing; otherwise the document
      is stored with chunking once, and its failure is a 500. */
  method DocumentsPost(store: DocumentStore, embed: EmbeddingService, body: Option<PostBody>) returns (r: Reply)
    requires store.Valid()
    modifies store
    ensures store.Valid()
    ensures body.None? ==> r == Failed(500, SaveFailedMessage) && store.rows == old(store.rows)
    ensures body.Some? && PostedDocument(body.value).None? ==>
      r == Failed(400, FieldsRequiredMessage) && store.rows == old(store.rows)
    ensures body.Some? && PostedDocument(body.value).Some? ==>
      var doc := PostedDocument(body.value).value;
      var stored := StoreAll(store, embed, ChunkDocuments(doc.title, Chunking.ChunksOf(doc.content, DefaultMaxChunkSize), doc.category));
      && store.Contents() == old(store.Contents()) + stored.0
      && r == if stored.1.None? then Done(SavedMessage) else Failed(500, SaveFailedMessage)
  {
    if body.None? {
      return Failed(500, SaveFailedMessage);
    }
    var doc := PostedDocument(body.value);
    if doc.None? {
      return Failed(400, FieldsRequiredMessage);
    }
    var stored := StoreDocumentWithChunks(store, embed, doc.value.title, doc.value.content, doc.value.category);
    if stored.Err? {
      return Failed(500, SaveFailedMessage);
    }
    return Done(SavedMessage);
  }

  /** `DELETE /api/documents?{search}`: without a truthy `id` a 400 and nothing
      changes; otherwise `parseInt(id)` is deleted, and its failure is a 500. */
  method DocumentsDelete(store: DocumentStore, search: string) returns (r: Reply)
    requires store.Valid()
    modifies store
    ensures store.Valid()
    ensures var id := FormUrlencoded.Get(FormUrlencoded.FromSearch(search), "id");
      && (!Truthy(id) ==> r == Failed(400, NeedIdMessage) && store.rows == old(store.rows))
      && (Truthy(id) ==>
            var target := ParseInt(id.value);
            && (r.Failed? <==> store.deleteError(target).Some?)
            && (r.Failed? ==> r == Failed(500, DeleteFailedMessage) && store.rows == old(store.rows))
            && (r.Done? ==>
                  && r.message == DeletedMessage
                  && forall x :: x in store.rows <==> x in old(store.rows) && !(target.Int? && x.id == target.value)))
  {
    var id := FormUrlencoded.Get(FormUrlencoded.FromSearch(search), "id");
    if id.None? || id.value == "" {
      return Failed(400, NeedIdMessage);
    }
    var deleted := DeleteDocument(store, ParseInt(id.value));
    if deleted.Err? {
      return Failed(500, DeleteFailedMessage);
    }
    return Done(DeletedMessage);
  }
}
