/** The pipeline stage that turns the `Blog` a crawled page carries into an
    index document and upserts it keyed on its "ID" field. */
module Pipeline {

  import opened Wrappers
  import opened JavaLang
  import opened BlogModel
  import opened Index
  import Crawler

  /** The key the pipeline reads the Blog under. The source reads it from
      another crawler class, which is not part of this model; it is taken to
      be the same key `Crawler` stores the Blog under. */
  const RESULT_ITEM_KEY: string := Crawler.RESULT_ITEM_KEY

  const ID_FIELD: string := "ID"

  /** The TAGS field is written for a tag list that is neither null nor empty. */
  predicate HasTags(b: BlogValue) {
    b.tags.Some? && |b.tags.value| > 0
  }

  predicate Stored(kind: FieldKind) {
    kind != LongPoint
  }

  /** The field is a stored field called `name`. */
  predicate StoredAs(f: Field, name: string) {
    f.name == name && Stored(f.kind)
  }

  /** `Document.get(name)`: the value of the first stored field so named,
      null when there is none (`StoredValueAt`, `StoredValueAbsent`). */
  function StoredValue(doc: Document, name: string): (r: Option<FieldValue>)
    ensures r.Some? ==> |doc| > 0
    ensures |doc| > 0 && StoredAs(doc[0], name) ==> r == Some(doc[0].value)
    decreases |doc|
  {
    if doc == [] then None
    else if StoredAs(doc[0], name) then Some(doc[0].value)
    else StoredValue(doc[1..], name)
  }

  lemma {:induction false} StoredValueAt(doc: Document, i: nat)
    requires i < |doc| && Stored(doc[i].kind)
    requires forall j :: 0 <= j < i ==> !StoredAs(doc[j], doc[i].name)
    ensures StoredValue(doc, doc[i].name) == Some(doc[i].value)
    decreases i
  {
    if i > 0 {
      StoredValueAt(doc[1..], i - 1);
    }
  }

  lemma {:induction false} StoredValueAbsent(doc: Document, name: string)
    requires forall j :: 0 <= j < |doc| ==> !StoredAs(doc[j], name)
    ensures StoredValue(doc, name) == None
    decreases |doc|
  {
    if doc != [] {
      StoredValueAbsent(doc[1..], name);
    }
  }

  function FieldNames(doc: Document): seq<string> {
    seq(|doc|, i requires 0 <= i < |doc| => doc[i].name)
  }

  /** The names `toDoc` writes, in order. */
  function ExpectedNames(b: BlogValue): seq<string> {
    ["ID", "TITLE", "CONTENT", "AUTHOR", "PUBLISH_TIME", "PUBLISH_TIME_STORE"]
      + (if HasTags(b) then ["TAGS"] else []) + ["URL"]
  }

  /** The document `toDoc(blog)` builds, or the IllegalArgumentException
      Lucene throws when a text or string field is given a null value. */
  function BlogDocument(b: BlogValue): (r: Result<Document, Throwable>)
    ensures r.Err? <==> b.id.None? || b.title.None? || b.content.None? || b.author.None? || b.url.None?
    ensures r.Err? ==> r.error == IllegalArgument
    ensures r.Ok? ==> FieldNames(r.value) == ExpectedNames(b)
    ensures r.Ok? ==>
      && StoredValue(r.value, "ID") == Some(Str(b.id.value))
      && StoredValue(r.value, "TITLE") == Some(Str(b.title.value))
      && StoredValue(r.value, "CONTENT") == Some(Str(b.content.value))
      && StoredValue(r.value, "AUTHOR") == Some(Str(b.author.value))
      && StoredValue(r.value, "URL") == Some(Str(b.url.value))
    ensures r.Ok? ==>
      && Field("PUBLISH_TIME", LongPoint, Long(b.date)) in r.value
      && StoredValue(r.value, "PUBLISH_TIME") == None
      && StoredValue(r.value, "PUBLISH_TIME_STORE") == Some(Long(b.date))
    ensures r.Ok? ==>
      StoredValue(r.value, "TAGS") == if HasTags(b) then Some(Str(Join(b.tags.value, ","))) else None
    ensures r.Ok? ==> KeyedBy(r.value, ID_FIELD, b.id.value)
  {
    if b.id.None? || b.title.None? || b.content.None? || b.author.None? || b.url.None? then
      Err(IllegalArgument)
    else
      var doc := BuiltDoc(b);
      DocumentNames(b, doc);
      DocumentStrings(b, doc);
      DocumentTimeAndTags(b, doc);
      Ok(doc)
  }

  /** The document `toDoc` writes for a Blog whose strings are all present:
      the six leading fields, TAGS when there are tags, then URL. */
  function BuiltDoc(b: BlogValue): Document
    requires b.id.Some? && b.title.Some? && b.content.Some? && b.author.Some? && b.url.Some?
  {
    [ Field("ID", StringField, Str(b.id.value)),
      Field("TITLE", TextField, Str(b.title.value)),
      Field("CONTENT", TextField, Str(b.content.value)),
      Field("AUTHOR", StringField, Str(b.author.value)),
      Field("PUBLISH_TIME", LongPoint, Long(b.date)),
      Field("PUBLISH_TIME_STORE", StoredField, Long(b.date))]
    + (if HasTags(b) then [Field("TAGS", TextField, Str(Join(b.tags.value, ",")))] else [])
    + [Field("URL", StringField, Str(b.url.value))]
  }

  lemma DocumentNames(b: BlogValue, doc: Document)
    requires b.id.Some? && b.title.Some? && b.content.Some? && b.author.Some? && b.url.Some?
    requires doc == BuiltDoc(b)
    ensures FieldNames(doc) == ExpectedNames(b)
    ensures KeyedBy(doc, ID_FIELD, b.id.value)
  {
    var names := FieldNames(doc);
    assert names == ExpectedNames(b);
    forall v | HasTerm(doc, ID_FIELD, v)
      ensures v == b.id.value
    {
      var i :| 0 <= i < |doc| && doc[i] == Field(ID_FIELD, StringField, Str(v));
      assert names[i] == ID_FIELD;
    }
    assert doc[0] == Field(ID_FIELD, StringField, Str(b.id.value));
  }

  lemma DocumentStrings(b: BlogValue, doc: Document)
    requires b.id.Some? && b.title.Some? && b.content.Some? && b.author.Some? && b.url.Some?
    requires doc == BuiltDoc(b)
    ensures StoredValue(doc, "ID") == Some(Str(b.id.value))
    ensures StoredValue(doc, "TITLE") == Some(Str(b.title.value))
    ensures StoredValue(doc, "CONTENT") == Some(Str(b.content.value))
    ensures StoredValue(doc, "AUTHOR") == Some(Str(b.author.value))
    ensures StoredValue(doc, "URL") == Some(Str(b.url.value))
  {
    StoredValueAt(doc, 0);
    StoredValueAt(doc, 1);
    StoredValueAt(doc, 2);
    StoredValueAt(doc, 3);
    StoredValueAt(doc, |doc| - 1);
  }

  lemma DocumentTimeAndTags(b: BlogValue, doc: Document)
    requires b.id.Some? && b.title.Some? && b.content.Some? && b.author.Some? && b.url.Some?
    requires doc == BuiltDoc(b)
    ensures Field("PUBLISH_TIME", LongPoint, Long(b.date)) in doc
    ensures StoredValue(doc, "PUBLISH_TIME") == None
    ensures StoredValue(doc, "PUBLISH_TIME_STORE") == Some(Long(b.date))
    ensures StoredValue(doc, "TAGS") == if HasTags(b) then Some(Str(Join(b.tags.value, ","))) else None
  {
    StoredValueAt(doc, 5);
    assert doc[4] == Field("PUBLISH_TIME", LongPoint, Long(b.date));
    StoredValueAbsent(doc, "PUBLISH_TIME");
    if HasTags(b) {
      StoredValueAt(doc, 6);
    } else {
      StoredValueAbsent(doc, "TAGS");
    }
  }

  /** The document the `/kw` endpoint reads its TIME column from
      ("TIME_STORE") is never written: that column is always null. */
  lemma NoTimeStoreColumn(b: BlogValue)
    requires BlogDocument(b).Ok?
    ensures StoredValue(BlogDocument(b).value, "TIME_STORE") == None
  {
    var doc := BlogDocument(b).value;
    forall j | 0 <= j < |doc|
      ensures doc[j].name != "TIME_STORE"
    {
      assert doc[j].name == FieldNames(doc)[j] == ExpectedNames(b)[j];
    }
    StoredValueAbsent(doc, "TIME_STORE");
  }

  /** Indexing a crawled Blog keeps the index's ids unique, and indexing the
      same Blog again leaves the index as it was after the first time. */
  lemma IndexingIsIdempotent(docs: seq<Document>, b: BlogValue)
    requires BlogDocument(b).Ok?
    ensures UniqueKeys(docs, ID_FIELD) ==>
              UniqueKeys(Upsert(docs, ID_FIELD, b.id.value, BlogDocument(b).value), ID_FIELD)
    ensures var d := BlogDocument(b).value;
            Upsert(Upsert(docs, ID_FIELD, b.id.value, d), ID_FIELD, b.id.value, d)
              == Upsert(docs, ID_FIELD, b.id.value, d)
  {
    var d := BlogDocument(b).value;
    if UniqueKeys(docs, ID_FIELD) {
      UpsertKeepsUniqueKeys(docs, ID_FIELD, b.id.value, d);
    }
    UpsertIdempotent(docs, ID_FIELD, b.id.value, d);
  }

  /** A re-crawled post (same id, new content) replaces the old document:
      the index is as if only the new version had been written, and the
      second write does not change the document count. */
  lemma ReindexingReplaces(docs: seq<Document>, b: BlogValue, b': BlogValue)
    requires BlogDocument(b).Ok? && BlogDocument(b').Ok? && b'.id == b.id
    ensures var d, d' := BlogDocument(b).value, BlogDocument(b').value;
            var once := Upsert(docs, ID_FIELD, b.id.value, d);
            Upsert(once, ID_FIELD, b.id.value, d') == Upsert(docs, ID_FIELD, b.id.value, d')
    ensures var d, d' := BlogDocument(b).value, BlogDocument(b').value;
            var once := Upsert(docs, ID_FIELD, b.id.value, d);
            |Upsert(once, ID_FIELD, b.id.value, d')| == |once|
  {
    var d, d' := BlogDocument(b).value, BlogDocument(b').value;
    UpsertReplaces(docs, ID_FIELD, b.id.value, d, d');
  }

  class LucenePipeline {
    const idxService: IdxService

    constructor (idxService: IdxService)
      ensures this.idxService == idxService
    {
      this.idxService := idxService;
    }

    /** `toDoc(blog)`, adding one field after another. */
    method ToDoc(blog: Blog) returns (r: Result<Document, Throwable>)
      ensures r == BlogDocument(blog.Value())
    {
      var document: Document := [];
      if blog.id.None? {
        return Err(IllegalArgument);
      }
      document := document + [Field("ID", StringField, Str(blog.id.value))];
      if blog.title.None? {
        return Err(IllegalArgument);
      }
      document := document + [Field("TITLE", TextField, Str(blog.title.value))];
      if blog.content.None? {
        return Err(IllegalArgument);
      }
      document := document + [Field("CONTENT", TextField, Str(blog.content.value))];
      if blog.author.None? {
        return Err(IllegalArgument);
      }
      document := document + [Field("AUTHOR", StringField, Str(blog.author.value))];

      var publishTime := blog.date;
      document := document + [Field("PUBLISH_TIME", LongPoint, Long(publishTime))];
      document := document + [Field("PUBLISH_TIME_STORE", StoredField, Long(publishTime))];

      var tags := blog.tags;
      if tags.Some? && |tags.value| > 0 {
        var tagStr := Join(tags.value, ",");
        document := document + [Field("TAGS", TextField, Str(tagStr))];
      }

      if blog.url.None? {
        return Err(IllegalArgument);
      }
      document := document + [Field("URL", StringField, Str(blog.url.value))];
      assert document == BuiltDoc(blog.Value());
      r := Ok(document);
    }

    /** `process(resultItems, task)`: `items` are the page's result items. */
    method Process(items: map<string, Blog>) returns (thrown: Option<Throwable>)
      modifies idxService
      ensures idxService.writerOpen == old(idxService.writerOpen)
      ensures RESULT_ITEM_KEY !in items ==>
        && thrown == None
        && idxService.docs == old(idxService.docs)
        && idxService.calls == old(idxService.calls)
      ensures RESULT_ITEM_KEY in items && BlogDocument(items[RESULT_ITEM_KEY].Value()).Err? ==>
        && thrown == Some(IllegalArgument)
        && idxService.docs == old(idxService.docs)
        && idxService.calls == old(idxService.calls)
      ensures RESULT_ITEM_KEY in items && BlogDocument(items[RESULT_ITEM_KEY].Value()).Ok? ==>
        var b := items[RESULT_ITEM_KEY].Value();
        var doc := BlogDocument(b).value;
        && thrown == None
        && idxService.calls == old(idxService.calls) + [AddCall(Some(ID_FIELD), b.id, Some(doc))]
        && idxService.docs ==
             if Accepts(old(idxService.writerOpen), Some(ID_FIELD), b.id, Some(doc))
             then Upsert(old(idxService.docs), ID_FIELD, b.id.value, doc)
             else old(idxService.docs)
    {
      thrown := None;
      if RESULT_ITEM_KEY !in items {
        return;
      }
      var blog := items[RESULT_ITEM_KEY];
      var id := blog.id;
      var doc := ToDoc(blog);
      if doc.Err? {
        return Some(doc.error);
      }
      var ok := idxService.AddDocument(Some(ID_FIELD), id, Some(doc.value));
    }
  }
}
