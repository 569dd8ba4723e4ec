/** The in-memory index of index.py: the list of serving projections of the
    Website documents that `IndexUpdater.background_task` rebuilds every hour. */
module Index {
  import opened Store

  /** The five members the serving path reads from a Website document. */
  datatype IndexEntry = IndexEntry(
    vector: seq<real>,
    url: string,
    relevance: real,
    content: string,
    title: string)

  /** Whether reading all five serving members of a document succeeds. */
  predicate HasServingFields(d: Document) {
    d.vector.Some? && d.url.Some? && d.relevance.Some? && d.content.Some? && d.title.Some?
  }

  /** The dictionary built for one document. */
  function Project(d: Document): IndexEntry
    requires HasServingFields(d)
  {
    IndexEntry(d.vector.value, d.url.value, d.relevance.value, d.content.value, d.title.value)
  }

  /** A Website document holding exactly the members of an entry. */
  function AsDocument(e: IndexEntry): Document {
    Document(Some(e.url), Some(e.title), Some(e.content), Some(e.vector), Some(e.relevance))
  }

  /** Index of the first document lacking a serving member, or the length if none. */
  function FirstIncomplete(docs: seq<Document>): (n: nat)
    ensures n <= |docs|
    ensures forall k :: 0 <= k < n ==> HasServingFields(docs[k])
    ensures n < |docs| ==> !HasServingFields(docs[n])
    ensures n == |docs| <==> forall k :: 0 <= k < |docs| ==> HasServingFields(docs[k])
  {
    if docs == [] || !HasServingFields(docs[0]) then 0
    else 1 + FirstIncomplete(docs[1..])
  }

  /** The list a refresh leaves behind: the projections of the documents before
      the first one that lacks a member (the KeyError ends the build loop). */
  function Projections(docs: seq<Document>): seq<IndexEntry> {
    var n := FirstIncomplete(docs);
    seq(n, k requires 0 <= k < n => Project(docs[k]))
  }

  /** What a refresh cycle got from `websiteCollection.find()`. */
  datatype Fetch = Fetched(documents: seq<Document>) | FetchFailed

  class IndexUpdater {
    var indexList: seq<IndexEntry>
    const mongoDB: string

    constructor (mongoDB: string)
      ensures indexList == []
      ensures this.mongoDB == mongoDB
    {
      indexList := [];
      this.mongoDB := mongoDB;
    }

    /** One cycle of background_task: the try block and its exception handler. */
    method Refresh(fetch: Fetch)
      modifies this
      ensures fetch.FetchFailed? ==> indexList == old(indexList)
      ensures fetch.Fetched? ==> indexList == Projections(fetch.documents)
    {
      if fetch.FetchFailed? {
        // the handler only reconnects; the published list is left as it was
        return;
      }
      var documents := fetch.documents;
      indexList := [];
      var i := 0;
      while i < |documents|
        invariant 0 <= i <= FirstIncomplete(documents)
        invariant |indexList| == i
        invariant forall k :: 0 <= k < i ==> indexList[k] == Project(documents[k])
      {
        var document := documents[i];
        if !HasServingFields(document) {
          // document[key] raises KeyError; the handler swallows it mid-build
          assert indexList == Projections(documents);
          return;
        }
        var current := IndexEntry(document.vector.value, document.url.value,
                                  document.relevance.value, document.content.value,
                                  document.title.value);
        indexList := indexList + [current];
        i := i + 1;
      }
      assert indexList == Projections(documents);
    }
  }

  /** A refresh over documents that all carry the five members lists one entry
      per document, in fetch order, each copied from its document. */
  lemma ProjectionsOfCompleteDocuments(docs: seq<Document>)
    requires forall k :: 0 <= k < |docs| ==> HasServingFields(docs[k])
    ensures |Projections(docs)| == |docs|
    ensures forall k :: 0 <= k < |docs| ==> Projections(docs)[k] == Project(docs[k])
  {
  }

  /** A document lacking a member leaves the list a strict prefix: the entries of
      the documents before it, and nothing from it or after it. */
  lemma ProjectionsStopAtMissingMember(docs: seq<Document>, j: nat)
    requires j < |docs| && !HasServingFields(docs[j])
    ensures |Projections(docs)| <= j < |docs|
    ensures forall k :: 0 <= k < |Projections(docs)| ==> Projections(docs)[k] == Project(docs[k])
    ensures !HasServingFields(docs[|Projections(docs)|])
  {
  }

  /** An entry and the document holding exactly its members determine each other. */
  lemma ProjectRoundTrip(e: IndexEntry, d: Document)
    ensures HasServingFields(AsDocument(e)) && Project(AsDocument(e)) == e
    ensures HasServingFields(d) ==> AsDocument(Project(d)) == d
  {
  }

  /** Re-indexing the documents of a published list reproduces that list. */
  lemma {:induction false} ProjectionsOfPublishedEntries(entries: seq<IndexEntry>)
    ensures Projections(seq(|entries|, k requires 0 <= k < |entries| => AsDocument(entries[k]))) == entries
  {
    var docs := seq(|entries|, k requires 0 <= k < |entries| => AsDocument(entries[k]));
    forall k | 0 <= k < |docs|
      ensures HasServingFields(docs[k])
    {
      ProjectRoundTrip(entries[k], docs[k]);
    }
    forall k | 0 <= k < |docs|
      ensures Projections(docs)[k] == entries[k]
    {
      ProjectRoundTrip(entries[k], docs[k]);
    }
  }
}
