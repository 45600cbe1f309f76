# ir_demo: crawler, indexing pipeline and index service in Dafny

The system crawls one blogger's pages on cnblogs.com and turns each post into
a `Blog` bean. It converts the bean into a Lucene document and upserts that
document into an index, keyed on its `ID` field. Title, field and
title-or-content searches then read pages of ranked hits out of that index.

This project models four parts of that system:

- **`Crawler`** (`crawler.dfy`) models `CnBlogsCrawler`.
  - The constructor fixes the listing-page prefix and the post-page prefix for a blogger.
  - `process` tells the two page kinds apart by prefix.
  - On a listing page, it queues the post links and the next-page link, then skips the page.
  - On a post page, it fills a fresh `Blog` and stores it under `BLOG_INFO`.
  - The XPath results of a page are a value (`Html`), as are the parsed statistics reply and the date parser.
- **`BlogModel`** (`blog.dfy`) models the `Blog` bean as a class with eight fields and their setters.
- **`Pipeline`** (`pipeline.dfy`) models `LucenePipeline`.
  - `toDoc` builds the document field by field.
  - `process` reads the Blog from the result items and calls `addDocument("ID", id, doc)`.
- **`Index`** (`index.dfy`) models `IdxService` over an abstract index.
  - Documents are lists of typed fields.
  - `updateDocument(Term(fld, key), doc)` deletes every document that holds the exact term and then appends `doc`.
  - The queries take the query's ranked hit list as an input. That list must rank exactly the matching documents, each once.

`JavaLang` (`java_lang.dfy`) holds the Java semantics the code depends on:

- 32-bit `int` arithmetic with wrap-around;
- the exceptions that escape to callers (`NullPointer`, `IllegalArgument`, `ArrayIndexOutOfBounds`, `QuerySyntax`);
- `String.replace` and `String.join`.

Java `null` is `None` throughout this model.

## Where the model follows the code rather than the documented behaviour

- **Empty strings.** Only `addDocument` rejects an empty id or key field name. An empty title or content is indexed as it is.
- **Null strings.** A null title, content, id, author or url makes `toDoc` throw IllegalArgumentException, and the post is not indexed. It is not turned into an empty string.
- **Missing post date.** The date parser is called on `null` when the post-date element is missing. That throws NullPointerException, which `catch (ParseException)` does not catch, so the post page gets no result item. The `catch (ParseException)` at line 114 shows that a bad date was meant not to stop the post from being indexed, with the date left at 0. As written, that holds only when a date text is present and fails to parse, and the model follows that.
- **Duplicate hits.** The pages of `queryByKw` are not de-duplicated. They are a plain slice `[start, end)` of the hit list.
- **The `/kw` endpoint's time.** The endpoint reads a `TIME_STORE` field, which `toDoc` never writes. The date is stored under `PUBLISH_TIME_STORE` (see `Pipeline.NoTimeStoreColumn`).

## Model

| member | source | states |
|---|---|---|
| Crawler.CnBlogsCrawler.constructor | ir_demo-master/src/main/java/cn/edu/bistu/cs/ir/crawler/CnBlogsCrawler.java:48-55 | The listing prefix is `https://www.cnblogs.com/<blogger>/default.html`. The post prefix is `https://www.cnblogs.com/<blogger>/p/`. |
| Crawler.PrefixesExclusive | ir_demo-master/src/main/java/cn/edu/bistu/cs/ir/crawler/CnBlogsCrawler.java:53-54 | No URL starts with both the listing prefix and the post prefix. |
| Crawler.ListPrefix | ir_demo-master/src/main/java/cn/edu/bistu/cs/ir/crawler/CnBlogsCrawler.java:53 | The listing prefix is `https://www.cnblogs.com/` followed by the blogger id, then `/`, then `default.html`. |
| Crawler.BlogPrefix | ir_demo-master/src/main/java/cn/edu/bistu/cs/ir/crawler/CnBlogsCrawler.java:54 | The post prefix is `https://www.cnblogs.com/` followed by the blogger id, then `/`, then `p/`. |
| Crawler.Classify | ir_demo-master/src/main/java/cn/edu/bistu/cs/ir/crawler/CnBlogsCrawler.java:63-78 | The branch `process` takes. A page is a listing page iff its URL starts with the listing prefix, and a post page iff it starts with the post prefix. Otherwise it is neither, so the order of the two tests does not matter. |
| Crawler.DeriveId | ir_demo-master/src/main/java/cn/edu/bistu/cs/ir/crawler/CnBlogsCrawler.java:81 | The id is the URL with every post prefix and then every ".html" removed by `replace`; it is never longer than the URL. Its round trip is `Crawler.DeriveIdOfPostUrl`. |
| Crawler.FirstStats | ir_demo-master/src/main/java/cn/edu/bistu/cs/ir/crawler/CnBlogsCrawler.java:104-110 | The statistics kept are the first element of the parsed reply when the reply is present and non-empty, and null otherwise. |
| Crawler.DeriveIdOfPostUrl | ir_demo-master/src/main/java/cn/edu/bistu/cs/ir/crawler/CnBlogsCrawler.java:81 | Removing the prefix and then ".html" from `prefix + n + ".html"` gives back `n` exactly, provided `n` contains neither marker. |
| Crawler.NumericPostId | ir_demo-master/src/main/java/cn/edu/bistu/cs/ir/crawler/CnBlogsCrawler.java:81 | A numeric post number is recovered exactly as the id. Two different post numbers never give the same id. |
| Crawler.NumericHasNoMarkers | ir_demo-master/src/main/java/cn/edu/bistu/cs/ir/crawler/CnBlogsCrawler.java:81 | A string of digits contains neither the post prefix nor ".html". |
| Crawler.CnBlogsCrawler.Process | ir_demo-master/src/main/java/cn/edu/bistu/cs/ir/crawler/CnBlogsCrawler.java:61-120 | **Listing page:** targets become the old targets, then the post links, then the next link when it is neither null nor empty. The page is skipped and no field is stored.<br>**Other URL:** nothing changes.<br>**Post page without a date element:** NullPointerException, and no field is stored.<br>**Post page with a date element:** a fresh Blog is stored under `BLOG_INFO` and nothing else changes. Its id is the derived id, author the blogger, url the page URL, and title, content and tags come from the page. Its statistics are the first element of a non-empty reply, otherwise null. Its date is the parsed date, or 0 when parsing fails. |
| Crawler.Page.AddTargetRequests | ir_demo-master/src/main/java/cn/edu/bistu/cs/ir/crawler/CnBlogsCrawler.java:69 | Appends the links, in order, to the page's targets. Nothing else changes. |
| Crawler.Page.AddTargetRequest | ir_demo-master/src/main/java/cn/edu/bistu/cs/ir/crawler/CnBlogsCrawler.java:74 | Appends one link to the targets. Nothing else changes. |
| Crawler.Page.SetSkip | ir_demo-master/src/main/java/cn/edu/bistu/cs/ir/crawler/CnBlogsCrawler.java:77 | Sets the skip flag. Targets and fields are unchanged. |
| Crawler.Page.PutField | ir_demo-master/src/main/java/cn/edu/bistu/cs/ir/crawler/CnBlogsCrawler.java:118 | Maps the key to the Blog. Every other entry and the rest of the page are unchanged. |
| BlogModel.Blog.constructor | ir_demo-master/src/main/java/cn/edu/bistu/cs/ir/model/Blog.java:14-50 | A new Blog has every reference field null and `date` 0. |
| BlogModel.Blog.SetId | ir_demo-master/src/main/java/cn/edu/bistu/cs/ir/model/Blog.java:12-19 | Sets `id` and leaves the other seven fields as they were. |
| BlogModel.Blog.SetTitle | ir_demo-master/src/main/java/cn/edu/bistu/cs/ir/model/Blog.java:12-24 | Sets `title` and leaves the rest as it was. |
| BlogModel.Blog.SetDate | ir_demo-master/src/main/java/cn/edu/bistu/cs/ir/model/Blog.java:12-29 | Sets `date` and leaves the rest as it was. |
| BlogModel.Blog.SetContent | ir_demo-master/src/main/java/cn/edu/bistu/cs/ir/model/Blog.java:12-34 | Sets `content` and leaves the rest as it was. |
| BlogModel.Blog.SetAuthor | ir_demo-master/src/main/java/cn/edu/bistu/cs/ir/model/Blog.java:12-39 | Sets `author` and leaves the rest as it was. |
| BlogModel.Blog.SetTags | ir_demo-master/src/main/java/cn/edu/bistu/cs/ir/model/Blog.java:12-44 | Sets `tags` and leaves the rest as it was. |
| BlogModel.Blog.SetBlogStats | ir_demo-master/src/main/java/cn/edu/bistu/cs/ir/model/Blog.java:12-49 | Sets `blogStats` and leaves the rest as it was. |
| BlogModel.Blog.SetUrl | ir_demo-master/src/main/java/cn/edu/bistu/cs/ir/model/Blog.java:57-59 | Sets `url` and leaves the rest as it was. |
| Pipeline.BlogDocument | ir_demo-master/src/main/java/cn/edu/bistu/cs/ir/index/LucenePipeline.java:44-72 | **Error:** IllegalArgumentException exactly when id, title, content, author or url is null.<br>**Otherwise there is a document, whose field names are, in order:** ID, TITLE, CONTENT, AUTHOR, PUBLISH_TIME, PUBLISH_TIME_STORE, then TAGS only for a non-null, non-empty tag list, then URL.<br>**Its stored values:**<ul><li>`get` returns the five strings.</li><li>PUBLISH_TIME is a point and is not stored.</li><li>PUBLISH_TIME_STORE holds the date.</li><li>TAGS holds the comma-joined tags.</li></ul>**Its key:** the document's only exact-match ID term is the Blog's id. |
| Pipeline.LucenePipeline.ToDoc | ir_demo-master/src/main/java/cn/edu/bistu/cs/ir/index/LucenePipeline.java:44-72 | Adding the fields one after another gives exactly `BlogDocument` of the Blog's current value, error included. |
| Pipeline.LucenePipeline.Process | ir_demo-master/src/main/java/cn/edu/bistu/cs/ir/index/LucenePipeline.java:30-42 | **No Blog under the key:** returns, with no call to the index.<br>**`toDoc` throws:** the exception escapes, with no call to the index.<br>**Otherwise:** exactly one `addDocument("ID", id, doc)` is made. The index then holds the upsert of that document when the service accepts it, and is unchanged otherwise. |
| Pipeline.NoTimeStoreColumn | ir_demo-master/src/main/java/cn/edu/bistu/cs/ir/controller/QueryController.java:95 | An indexed Blog document has no stored `TIME_STORE` value, so the `/kw` TIME column is always null. |
| Pipeline.IndexingIsIdempotent | ir_demo-master/src/main/java/cn/edu/bistu/cs/ir/index/LucenePipeline.java:36-38 | Indexing a Blog keeps ids unique, and indexing the same Blog again leaves the index unchanged. |
| Pipeline.ReindexingReplaces | ir_demo-master/src/main/java/cn/edu/bistu/cs/ir/index/LucenePipeline.java:36-38 | Re-indexing a post with the same id gives the same index as writing only the new version. The second write never changes the document count, whatever the index held before. |
| Pipeline.StoredValueAt | ir_demo-master/src/main/java/cn/edu/bistu/cs/ir/controller/QueryController.java:93-95 | `Document.get` returns the value of the first stored field with that name; earlier unstored fields of that name (a `LongPoint`) are skipped. |
| Pipeline.StoredValue | ir_demo-master/src/main/java/cn/edu/bistu/cs/ir/controller/QueryController.java:93-95 | `Document.get(name)` scans the fields in order. A document whose first field is stored under `name` gives that field's value, and a non-null result needs a non-empty document. |
| Pipeline.StoredValueAbsent | ir_demo-master/src/main/java/cn/edu/bistu/cs/ir/controller/QueryController.java:93-95 | `Document.get` is null when no stored field has that name; an unstored `LongPoint` of that name does not count. |
| JavaLang.Wrap32 | ir_demo-master/src/main/java/cn/edu/bistu/cs/ir/index/IdxService.java:89-90 | Narrowing to `int`: the result is congruent to the input modulo 2^32, equals it inside the `int` range, and is shifted by exactly 2^32 just outside it. |
| JavaLang.ReplaceAbsent | ir_demo-master/src/main/java/cn/edu/bistu/cs/ir/crawler/CnBlogsCrawler.java:81 | `replace` leaves a string in which the target does not occur unchanged. |
| JavaLang.ReplaceSkips | ir_demo-master/src/main/java/cn/edu/bistu/cs/ir/crawler/CnBlogsCrawler.java:81 | `replace` copies unchanged a prefix in which no occurrence of the target starts. |
| JavaLang.ReplaceAll | ir_demo-master/src/main/java/cn/edu/bistu/cs/ir/crawler/CnBlogsCrawler.java:81 | `String.replace` scans left to right and replaces non-overlapping occurrences of a non-empty target. A replacement no longer than the target never makes the string longer. |
| JavaLang.Join | ir_demo-master/src/main/java/cn/edu/bistu/cs/ir/index/LucenePipeline.java:64 | `String.join(",", tags)` puts the separator between consecutive pieces only, so the joined string starts with the first piece, and with the first piece and a separator when there are two or more. Its inverse is `JavaLang.SplitJoin`. |
| JavaLang.SplitJoin | ir_demo-master/src/main/java/cn/edu/bistu/cs/ir/index/LucenePipeline.java:62-66 | If no tag contains a comma, splitting the joined TAGS string at commas gives back exactly the tag list, in order. |
| Index.Without | ir_demo-master/src/main/java/cn/edu/bistu/cs/ir/index/IdxService.java:66 | The delete half of `updateDocument` keeps only documents of the index that do not hold the term, and never grows the index. |
| Index.WithoutMultiset | ir_demo-master/src/main/java/cn/edu/bistu/cs/ir/index/IdxService.java:66 | A delete by term removes every copy of each document holding the term and keeps every other document with its multiplicity. |
| Index.Upsert | ir_demo-master/src/main/java/cn/edu/bistu/cs/ir/index/IdxService.java:66 | After `updateDocument` the new document is last, and every document before it came from the old index and does not hold the term. |
| Index.UpsertMultiset | ir_demo-master/src/main/java/cn/edu/bistu/cs/ir/index/IdxService.java:66 | Besides the new document, an upsert keeps exactly the old documents that do not hold the term, each as often as before. |
| Index.OnlyLatestHoldsKey | ir_demo-master/src/main/java/cn/edu/bistu/cs/ir/index/IdxService.java:66 | After an upsert, no document except the new one holds the key. |
| Index.UpsertReplaces | ir_demo-master/src/main/java/cn/edu/bistu/cs/ir/index/IdxService.java:66 | Two upserts on the same key (the first document holding it) give the same index as the second upsert alone. |
| Index.UpsertIdempotent | ir_demo-master/src/main/java/cn/edu/bistu/cs/ir/index/IdxService.java:66 | Upserting the same keyed document twice is the same as doing it once. |
| Index.UpsertKeepsUniqueKeys | ir_demo-master/src/main/java/cn/edu/bistu/cs/ir/index/IdxService.java:65-69 | If the index has unique keys and the new document carries exactly its key, the upserted index still has unique keys. |
| Index.UpsertCount | ir_demo-master/src/main/java/cn/edu/bistu/cs/ir/index/IdxService.java:65-69 | Over unique keys, an upsert grows the index by one for a new key and keeps its size for a key already present. |
| Index.WithoutLength | ir_demo-master/src/main/java/cn/edu/bistu/cs/ir/index/IdxService.java:66 | A delete by term shrinks the index by the number of documents that hold the term. |
| Index.UniqueCount | ir_demo-master/src/main/java/cn/edu/bistu/cs/ir/index/IdxService.java:65-69 | Over unique keys, at most one document holds a given key, and one does iff some document holds it. |
| Index.Accepts | ir_demo-master/src/main/java/cn/edu/bistu/cs/ir/index/IdxService.java:57-64 | The guards of `addDocument`: the writer is open, the document is non-null, and field name and id are non-null and non-empty. An accepted call therefore has a well-defined, non-empty term. |
| Index.Either | ir_demo-master/src/main/java/cn/edu/bistu/cs/ir/index/IdxService.java:127-136 | A BooleanQuery of two SHOULD clauses, with no MUST clause, matches a document iff either clause does. |
| Index.KwWindow | ir_demo-master/src/main/java/cn/edu/bistu/cs/ir/index/IdxService.java:89-97 | The hit window is computed in `int` arithmetic, with two error cases: a non-positive `start + pageSize` throws IllegalArgumentException, and a negative `start` below `end` throws ArrayIndexOutOfBounds. A window that is returned ends within the hits, and a non-empty one starts at 0 or later and spans at most `pageSize`. |
| Index.KwWindowInRange | ir_demo-master/src/main/java/cn/edu/bistu/cs/ir/index/IdxService.java:89-97 | For positive page numbers and sizes with no overflow, page p is the hits from (p-1)·size up to min(p·size, matches). That page is empty iff its start is at or past the number of matches. |
| Index.IdxService.constructor | ir_demo-master/src/main/java/cn/edu/bistu/cs/ir/index/IdxService.java:41-54 | The writer is open iff opening the directory succeeded. When it is open the index holds the documents already there; otherwise it holds none. |
| Index.IdxService.AddDocument | ir_demo-master/src/main/java/cn/edu/bistu/cs/ir/index/IdxService.java:56-75 | Returns true iff the writer is open, the document is non-null, and both field name and id are non-null and non-empty. On acceptance, the index becomes the upsert by `Term(idFld, id)`. On rejection it is unchanged. The writer state never changes, and the call is recorded in the ghost `calls` sequence. |
| Index.IdxService.GetTotalDocumentCount | ir_demo-master/src/main/java/cn/edu/bistu/cs/ir/index/IdxService.java:103-107 | The number of live documents, or NullPointerException without a writer. |
| Index.IdxService.CollectHits | ir_demo-master/src/main/java/cn/edu/bistu/cs/ir/index/IdxService.java:93-97 | The loop collects, in rank order, exactly the indexed documents of hits `lo` up to `hi`. `searcher.doc` returns only the stored fields, so these documents also keep the unstored `PUBLISH_TIME` point. On every `get` the two agree, because `StoredValue` skips unstored fields. |
| Index.IdxService.QueryByKw | ir_demo-master/src/main/java/cn/edu/bistu/cs/ir/index/IdxService.java:82-99 | **Errors:** NullPointerException without a writer, QuerySyntax for an unparsable keyword, and otherwise the window's error.<br>**Otherwise the result:** is exactly the hits of the `KwWindow` window in rank order, is non-empty only when no larger than `pageSize`, and every document in it matches the title query. |
| Index.IdxService.QueryByField | ir_demo-master/src/main/java/cn/edu/bistu/cs/ir/index/IdxService.java:108-121 | **Errors:** NullPointerException without a writer, QuerySyntax for an unparsable keyword, and IllegalArgumentException for `pageSize <= 0`.<br>**Otherwise the result:** is the first min(pageSize, matches) ranked hits, and every one of them matches. When fewer than `pageSize` are returned, every matching document is among them. |
| Index.IdxService.QueryTitleAndContent | ir_demo-master/src/main/java/cn/edu/bistu/cs/ir/index/IdxService.java:122-144 | **Errors:** as for `queryByField`; either clause failing to parse gives QuerySyntax.<br>**Otherwise the result:** is the first min(pageSize, matches) ranked hits of the two SHOULD clauses, and each result matches the title or the content. When fewer than `pageSize` are returned, every document that matches either clause is among them. |
| Index.IdxService.RankedComplete | ir_demo-master/src/main/java/cn/edu/bistu/cs/ir/index/IdxService.java:114-119 | Reading out the whole ranked hit list returns every matching document. |

## Left out

- **Lucene internals.** The model does not include analysis, tokenisation, scoring or QueryParser syntax.
  - A parsed query is a predicate on documents, or `None` when parsing fails.
  - Its ranking is an input that lists exactly the matching documents, each once.
  - Only exact-match `StringField` terms are hit by `updateDocument`'s delete term.
- **IOException paths.** These are: opening the index directory (an input to the constructor); `updateDocument` and `commit` failing; closing a reader.
  - Commit durability, reader snapshots, and the readers the queries open and never close are not modelled.
- **`destroy`.** It is left out. It closes the writer but leaves the field non-null. After it, every `addDocument` and every query and count throws AlreadyClosedException, which is unchecked and escapes the `catch (IOException)`. The model does not represent a closed writer: its `AddDocument` would still accept and upsert.
- **Concurrency.** WebMagic runs the crawler threads concurrently and calls the pipeline from them. The model has single calls only.
- **HTTP and networking.**
  - The statistics endpoint request and fastjson's `parseArray` are abstracted as the parsed reply, an input, so the difference between an empty and a null body is not modelled.
  - A malformed body is lost. On it `parseArray` throws (line 105 of `CnBlogsCrawler.java`), the exception escapes `process`, and the post gets no result item. The model's caller can only pass `None`, which stores the Blog without statistics.
  - Fetching pages and the XPath evaluation are abstracted as an `Html` value.
- **Crawler.CnBlogsCrawler.Process: dates.** This is not a model of `SimpleDateFormat` with pattern `uuuu-MM-dd HH:mm` (in that class the letter `u` is the day-of-week number, not the year). The parse is an opaque function from text to an optional timestamp, so the model states no calendar or time-zone semantics.
- **Crawler.Page.AddTargetRequests: URL handling.** The model does not cover WebMagic's own URL handling (it drops blank links, `#` links and links starting with `javascript:`, canonicalises relative ones, and de-duplicates through the scheduler) or the `Site` settings. The targets are the raw link list.
- **Crawler.Page.AddTargetRequest: URL handling.** The same WebMagic handling of a single link (blank or `#` links dropped, relative links canonicalised) is left out. The link is appended as it is.
- **Pipeline.RESULT_ITEM_KEY: key assumption.** `LucenePipeline` reads the item under `SinaBlogCrawler.RESULT_ITEM_KEY`, and `SinaBlogCrawler` is not part of this model.
  - The key is taken to be the same `BLOG_INFO` under which `CnBlogsCrawler` stores the Blog.
  - If the keys differed, nothing would be indexed. The model covers that case as "no Blog under the key".
- **`StringUtil.isEmpty` and `BlogStats`.** `StringUtil.isEmpty` is not part of this model; it is taken to mean "null or of length zero". `BlogStats`'s fields are not modelled either; it is an opaque value.
- **Getters and logging.** Getters are plain field reads of `Blog.Value()`. Logging has no effect on the state and is left out.
- **`QueryController` (REST endpoints and result maps).** It is context only. Its one observable consequence for the index contents is stated by `Pipeline.NoTimeStoreColumn`.
