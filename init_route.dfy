/** `/api/documents/init`: `POST` stores every seed document with chunking,
    counting successes and failures and carrying on after a failure; `GET`
    reports the number of seed documents and their categories. The seed set is a
    parameter. */
module InitRoute {
  import opened Wrappers
  import Chunking
  import opened Rag

  const InitDoneMessage := "ドキュメントの初期化が完了しました。"
  const InitFailedMessage := "ドキュメントの初期化に失敗しました。"
  const StatusMessage := "ドキュメント初期化APIが利用可能です。"

  datatype Stats = Stats(total: nat, success: nat, errors: nat)

  datatype InitResponse =
    | Initialised(message: string, success: bool, stats: Stats, errors: Option<seq<string>>)
    /** The body could not be read; `details` is the parser's message. */
    | InitFailed(status: nat, error: string, details: string)

  datatype StatusResponse = StatusResponse(message: string, availableDocuments: nat, categories: seq<string>)

  /** What storing one seed document gives: the rows stored and the error, if any. */
  type Attempt = Document -> (seq<Row>, Option<string>)

  /** What `storeDocumentWithChunks` stores for one seed document, and its error. */
  function Outcome(store: DocumentStore, embed: EmbeddingService): Attempt {
    (doc: Document) => StoreAll(store, embed, ChunkDocuments(doc.title, Chunking.ChunksOf(doc.content, DefaultMaxChunkSize), doc.category))
  }

  /** The entry of `errors` for a failed document: the thrown `Error` is written
      as "Error: " followed by its message. */
  function FailureLine(title: string, error: string): string {
    FailureOpen + title + FailureClose + error
  }

  const FailureOpen := "Failed to store \""
  const FailureClose := "\": Error: "

  /** The rows the seed loop stores, document after document. */
  function SeedRows(attempt: Attempt, docs: seq<Document>): seq<Row>
    decreases |docs|
  {
    if docs == [] then []
    else SeedRows(attempt, docs[..|docs| - 1]) + attempt(docs[|docs| - 1]).0
  }

  /** The `errors` entries of the seed loop, one per failed document, in order. */
  function FailureLines(attempt: Attempt, docs: seq<Document>): seq<string>
    decreases |docs|
  {
    if docs == [] then []
    else
      var last := docs[|docs| - 1];
      var more := match attempt(last).1
        case Some(m) => [FailureLine(last.title, m)]
        case None => [];
      FailureLines(attempt, docs[..|docs| - 1]) + more
  }

  /** The number of documents stored without error. */
  function SuccessCount(attempt: Attempt, docs: seq<Document>): nat
    decreases |docs|
  {
    if docs == [] then 0
    else SuccessCount(attempt, docs[..|docs| - 1]) + if attempt(docs[|docs| - 1]).1.None? then 1 else 0
  }

  /** Every document counts exactly once, as a success or as a failure. */
  lemma {:induction false} CountsAddUp(attempt: Attempt, docs: seq<Document>)
    ensures SuccessCount(attempt, docs) + |FailureLines(attempt, docs)| == |docs|
    decreases |docs|
  {
    if docs != [] {
      CountsAddUp(attempt, docs[..|docs| - 1]);
    }
  }

  lemma {:induction false} SeedRowsAppend(attempt: Attempt, a: seq<Document>, b: seq<Document>)
    ensures SeedRows(attempt, a + b) == SeedRows(attempt, a) + SeedRows(attempt, b)
    decreases |b|
  {
    if b == [] {
      assert a + b == a;
    } else {
      var init := b[..|b| - 1];
      assert (a + b)[..|a + b| - 1] == a + init;
      assert (a + b)[|a + b| - 1] == b[|b| - 1];
      SeedRowsAppend(attempt, a, init);
    }
  }

  /** A failing document does not stop the loop: the rows of document i are stored
      after those of the documents before it and before those of the documents
      after it, whatever the earlier or later documents' outcomes. */
  lemma {:induction false} EveryDocumentIsAttempted(attempt: Attempt, docs: seq<Document>, i: nat)
    requires i < |docs|
    ensures SeedRows(attempt, docs) ==
      SeedRows(attempt, docs[..i]) + attempt(docs[i]).0 + SeedRows(attempt, docs[i + 1..])
  {
    var head := docs[..i + 1];
    var tail := docs[i + 1..];
    assert docs == head + tail;
    SeedRowsAppend(attempt, head, tail);
    SeedStep(attempt, docs, i);
  }

  /** One more document extends the rows, the count and the error lines by what
      that document gives. */
  lemma {:induction false} SeedStep(attempt: Attempt, docs: seq<Document>, i: nat)
    requires i < |docs|
    ensures SeedRows(attempt, docs[..i + 1]) == SeedRows(attempt, docs[..i]) + attempt(docs[i]).0
    ensures SuccessCount(attempt, docs[..i + 1]) ==
            SuccessCount(attempt, docs[..i]) + if attempt(docs[i]).1.None? then 1 else 0
    ensures FailureLines(attempt, docs[..i + 1]) ==
            FailureLines(attempt, docs[..i]) +
            if attempt(docs[i]).1.Some? then [FailureLine(docs[i].title, attempt(docs[i]).1.value)] else []
  {
    assert docs[..i + 1][..i] == docs[..i] && docs[..i + 1][i] == docs[i];
  }

  /** One pass of the seed loop: store the document with chunking, then count it
      as a success, or count it and write down its error. */
  method SeedOne(store: DocumentStore, embed: EmbeddingService, doc: Document,
                 successCount: nat, errorCount: nat, errors: seq<string>)
    returns (successCount': nat, errorCount': nat, errors': seq<string>)
    requires store.Valid() && errorCount == |errors|
    modifies store
    ensures store.Valid()
    ensures store.Contents() == old(store.Contents()) + Outcome(store, embed)(doc).0
    ensures successCount' == successCount + if Outcome(store, embed)(doc).1.None? then 1 else 0
    ensures errors' == errors + if Outcome(store, embed)(doc).1.Some?
                                then [FailureLine(doc.title, Outcome(store, embed)(doc).1.value)] else []
    ensures errorCount' == |errors'|
  {
    successCount', errorCount', errors' := successCount, errorCount, errors;
    var stored := StoreDocumentWithChunks(store, embed, doc.title, doc.content, doc.category);
    if stored.Ok? {
      successCount' := successCount' + 1;
    } else {
      errorCount' := errorCount' + 1;
      errors' := errors' + [FailureLine(doc.title, stored.error)];
    }
  }

  /** `POST /api/documents/init`. `body` is the parsed `reset` flag, or the
      parser's message when the body is not JSON. The flag is only logged. */
  method InitPost(store: DocumentStore, embed: EmbeddingService, body: Result<bool>, seeds: seq<Document>)
    returns (r: InitResponse)
    requires store.Valid()
    modifies store
    ensures store.Valid()
    ensures body.Err? ==> r == InitFailed(500, InitFailedMessage, body.error) && store.rows == old(store.rows)
    ensures body.Ok? ==>
      var attempt := Outcome(store, embed);
      && r.Initialised? && r.message == InitDoneMessage && r.success
      && r.stats == Stats(|seeds|, SuccessCount(attempt, seeds), |FailureLines(attempt, seeds)|)
      && r.stats.success + r.stats.errors == r.stats.total
      && r.errors == (if FailureLines(attempt, seeds) == [] then None else Some(FailureLines(attempt, seeds)))
      && store.Contents() == old(store.Contents()) + SeedRows(attempt, seeds)
  {
    if body.Err? {
      return InitFailed(500, InitFailedMessage, body.error);
    }
    var successCount, errorCount, errors := SeedAll(store, embed, seeds);
    CountsAddUp(Outcome(store, embed), seeds);
    return Initialised(InitDoneMessage, true, Stats(|seeds|, successCount, errorCount),
                       if |errors| > 0 then Some(errors) else None);
  }

  /** The seed loop: every document is stored in turn, and a failure is counted
      and written down before the loop goes on to the next document. */
  method SeedAll(store: DocumentStore, embed: EmbeddingService, seeds: seq<Document>)
    returns (successCount: nat, errorCount: nat, errors: seq<string>)
    requires store.Valid()
    modifies store
    ensures store.Valid()
    ensures store.Contents() == old(store.Contents()) + SeedRows(Outcome(store, embed), seeds)
    ensures successCount == SuccessCount(Outcome(store, embed), seeds)
    ensures errors == FailureLines(Outcome(store, embed), seeds) && errorCount == |errors|
  {
    ghost var attempt := Outcome(store, embed);
    ghost var start := store.Contents();
    successCount, errorCount, errors := 0, 0, [];
    var i := 0;
    while i < |seeds|
      invariant 0 <= i <= |seeds|
      invariant store.Valid()
      invariant store.Contents() == start + SeedRows(attempt, seeds[..i])
      invariant successCount == SuccessCount(attempt, seeds[..i])
      invariant errors == FailureLines(attempt, seeds[..i])
      invariant errorCount == |errors|
    {
      SeedStep(attempt, seeds, i);
      ghost var before := store.Contents();
      ghost var prev := SeedRows(attempt, seeds[..i]);
      successCount, errorCount, errors := SeedOne(store, embed, seeds[i], successCount, errorCount, errors);
      StoreStep(start, before, store.Contents(), prev, attempt(seeds[i]).0);
      i := i + 1;
    }
    assert seeds[..i] == seeds;
  }

  /** Appending a sequence of rows. */
  lemma StoreStep(base: seq<Row>, before: seq<Row>, after: seq<Row>, prev: seq<Row>, rows: seq<Row>)
    requires before == base + prev && after == before + rows
    ensures after == base + (prev + rows)
  {
  }

  /** `[...new Set(xs)]`: the distinct elements of `xs`, each where it first
      appears. */
  function Unique(xs: seq<string>): seq<string>
    decreases |xs|
  {
    if xs == [] then []
    else
      var earlier := Unique(xs[..|xs| - 1]);
      var x := xs[|xs| - 1];
      if x in earlier then earlier else earlier + [x]
  }

  /** The index of the first occurrence of `x`, or |xs| when there is none. */
  function FirstIndex(xs: seq<string>, x: string): (k: nat)
    ensures k <= |xs|
    ensures k < |xs| ==> xs[k] == x
    decreases |xs|
  {
    if xs == [] then 0
    else if xs[0] == x then 0
    else 1 + FirstIndex(xs[1..], x)
  }

  lemma {:induction false} FirstIndexMinimal(xs: seq<string>, x: string, j: nat)
    requires j < |xs| && xs[j] == x
    ensures FirstIndex(xs, x) <= j
    decreases |xs|
  {
    if xs[0] != x {
      FirstIndexMinimal(xs[1..], x, j - 1);
    }
  }

  lemma {:induction false} FirstIndexAppend(xs: seq<string>, y: string, x: string)
    ensures x in xs ==> FirstIndex(xs + [y], x) == FirstIndex(xs, x) < |xs|
    ensures x !in xs && x == y ==> FirstIndex(xs + [y], x) == |xs|
    decreases |xs|
  {
    if xs != [] {
      assert (xs + [y])[0] == xs[0];
      assert (xs + [y])[1..] == xs[1..] + [y];
      if xs[0] != x {
        FirstIndexAppend(xs[1..], y, x);
        if x in xs {
          var j :| 0 <= j < |xs| && xs[j] == x;
          assert xs[1..][j - 1] == x;
        }
      }
    }
  }

  /** The distinct elements are the elements. */
  lemma {:induction false} UniqueMembers(xs: seq<string>)
    ensures forall x :: x in Unique(xs) <==> x in xs
    decreases |xs|
  {
    if xs != [] {
      var init := xs[..|xs| - 1];
      assert xs == init + [xs[|xs| - 1]];
      UniqueMembers(init);
    }
  }

  /** Every element exactly once, ordered by first appearance. */
  lemma {:induction false} UniqueInFirstAppearanceOrder(xs: seq<string>)
    ensures forall i, j :: 0 <= i < j < |Unique(xs)| ==> Unique(xs)[i] != Unique(xs)[j]
    ensures forall i, j :: 0 <= i < j < |Unique(xs)| ==> FirstIndex(xs, Unique(xs)[i]) < FirstIndex(xs, Unique(xs)[j])
    decreases |xs|
  {
    if xs != [] {
      var init := xs[..|xs| - 1];
      var y := xs[|xs| - 1];
      assert xs == init + [y];
      UniqueInFirstAppearanceOrder(init);
      UniqueMembers(init);
      var earlier := Unique(init);
      var r := Unique(xs);
      forall i | 0 <= i < |earlier| ensures FirstIndex(xs, earlier[i]) == FirstIndex(init, earlier[i]) < |init| {
        assert earlier[i] in earlier;
        FirstIndexAppend(init, y, earlier[i]);
      }
      if y !in earlier {
        FirstIndexAppend(init, y, y);
        forall i, j | 0 <= i < j < |r| ensures r[i] != r[j] && FirstIndex(xs, r[i]) < FirstIndex(xs, r[j]) {
          assert r[i] == earlier[i] && r[i] in earlier;
          if j < |earlier| {
            assert r[j] == earlier[j];
          }
        }
      }
    }
  }

  /** The category of each document, in order. */
  function CategoriesOf(docs: seq<Document>): (cs: seq<string>)
    ensures |cs| == |docs| && forall i :: 0 <= i < |docs| ==> cs[i] == docs[i].category
  {
    seq(|docs|, i requires 0 <= i < |docs| => docs[i].category)
  }

  /** `GET /api/documents/init`: the number of seed documents and their categories,
      each once, in order of first appearance. */
  function InitGet(seeds: seq<Document>): (r: StatusResponse)
    ensures r.message == StatusMessage && r.availableDocuments == |seeds|
    ensures forall c :: c in r.categories <==> exists j :: 0 <= j < |seeds| && seeds[j].category == c
    ensures forall i, j :: 0 <= i < j < |r.categories| ==> r.categories[i] != r.categories[j]
    ensures forall i, j :: 0 <= i < j < |r.categories| ==>
      FirstIndex(CategoriesOf(seeds), r.categories[i]) < FirstIndex(CategoriesOf(seeds), r.categories[j])
  {
    var cs := CategoriesOf(seeds);
    UniqueMembers(cs);
    UniqueInFirstAppearanceOrder(cs);
    assert forall c :: c in cs <==> exists j :: 0 <= j < |seeds| && seeds[j].category == c by {
      forall c | c in cs ensures exists j :: 0 <= j < |seeds| && seeds[j].category == c {
        var j :| 0 <= j < |cs| && cs[j] == c;
        assert seeds[j].category == c;
      }
    }
    StatusResponse(StatusMessage, |seeds|, Unique(cs))
  }
}
