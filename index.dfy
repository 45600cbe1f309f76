/** The index service: an optionally open writer over a sequence of
    documents, each a list of fields. `addDocument` replaces by key;
    the three queries slice a ranked hit list that Lucene's scoring
    supplies (here an input, constrained to rank exactly the matching
    documents). */
module Index {

  import opened Wrappers
  import opened JavaLang

  datatype FieldKind =
    | StringField   // indexed as one exact-match term, stored
    | TextField     // analysed, stored
    | LongPoint     // numeric point, not stored
    | StoredField   // stored only

  datatype FieldValue = Str(s: string) | Long(n: Int64)

  datatype Field = Field(name: string, kind: FieldKind, value: FieldValue)

  type Document = seq<Field>

  /** The document holds the exact-match term `(fld, v)`, so a delete by
      `new Term(fld, v)` hits it. Terms of analysed text are not modelled. */
  predicate HasTerm(doc: Document, fld: string, v: string) {
    Field(fld, StringField, Str(v)) in doc
  }

  /** `key` is the document's one and only exact-match value in `fld`. */
  ghost predicate KeyedBy(doc: Document, fld: string, key: string) {
    HasTerm(doc, fld, key) && forall v :: HasTerm(doc, fld, v) ==> v == key
  }

  /** No two documents share a value of the key field `fld`. */
  ghost predicate UniqueKeys(docs: seq<Document>, fld: string) {
    forall i, j, v :: 0 <= i < |docs| && 0 <= j < |docs| && i != j && HasTerm(docs[i], fld, v) ==> !HasTerm(docs[j], fld, v)
  }

  /** The documents that a delete by `Term(fld, key)` leaves, in order. */
  function Without(docs: seq<Document>, fld: string, key: string): (r: seq<Document>)
    ensures |r| <= |docs|
    ensures forall d :: d in r ==> d in docs && !HasTerm(d, fld, key)
    decreases |docs|
  {
    if docs == [] then []
    else
      var rest := Without(docs[1..], fld, key);
      if HasTerm(docs[0], fld, key) then rest else [docs[0]] + rest
  }

  /** A delete by term removes every copy of each document holding the term
      and keeps every other document with its multiplicity. */
  lemma {:induction false} WithoutMultiset(docs: seq<Document>, fld: string, key: string, d: Document)
    ensures multiset(Without(docs, fld, key))[d] == if HasTerm(d, fld, key) then 0 else multiset(docs)[d]
    decreases |docs|
  {
    if docs != [] {
      WithoutMultiset(docs[1..], fld, key, d);
      assert docs == [docs[0]] + docs[1..];
    }
  }

  /** `updateDocument(new Term(fld, key), doc)`: every document holding the
      term is deleted, then `doc` is added. */
  function Upsert(docs: seq<Document>, fld: string, key: string, doc: Document): (r: seq<Document>)
    ensures |r| > 0 && r[|r| - 1] == doc
    ensures forall d :: d in r[..|r| - 1] ==> d in docs && !HasTerm(d, fld, key)
  {
    Without(docs, fld, key) + [doc]
  }

  /** Besides the new document, an upsert keeps exactly the documents that do
      not hold the key, each as often as before. */
  lemma UpsertMultiset(docs: seq<Document>, fld: string, key: string, doc: Document, d: Document)
    requires d != doc
    ensures multiset(Upsert(docs, fld, key, doc))[d] == if HasTerm(d, fld, key) then 0 else multiset(docs)[d]
  {
    WithoutMultiset(docs, fld, key, d);
  }

  lemma {:induction false} WithoutAppend(a: seq<Document>, b: seq<Document>, fld: string, key: string)
    ensures Without(a + b, fld, key) == Without(a, fld, key) + Without(b, fld, key)
    decreases |a|
  {
    if a != [] {
      assert (a + b)[1..] == a[1..] + b;
      WithoutAppend(a[1..], b, fld, key);
    } else {
      assert a + b == b;
    }
  }

  lemma {:induction false} WithoutNothingToDelete(docs: seq<Document>, fld: string, key: string)
    requires forall i :: 0 <= i < |docs| ==> !HasTerm(docs[i], fld, key)
    ensures Without(docs, fld, key) == docs
    decreases |docs|
  {
    if docs != [] {
      WithoutNothingToDelete(docs[1..], fld, key);
      assert [docs[0]] + docs[1..] == docs;
    }
  }

  /** After an upsert, the document just written is the only one that holds
      the key. */
  lemma OnlyLatestHoldsKey(docs: seq<Document>, fld: string, key: string, doc: Document)
    ensures forall i :: 0 <= i < |Upsert(docs, fld, key, doc)| - 1 ==> !HasTerm(Upsert(docs, fld, key, doc)[i], fld, key)
  {
    var w := Without(docs, fld, key);
    assert Upsert(docs, fld, key, doc)[..|w|] == w;
    forall i | 0 <= i < |w|
      ensures !HasTerm(w[i], fld, key)
    {
      assert w[i] in w;
    }
  }

  /** Upserting with the same key twice leaves the index as one upsert of the
      later document does: the first document is replaced, not duplicated. */
  lemma UpsertReplaces(docs: seq<Document>, fld: string, key: string, doc: Document, doc': Document)
    requires HasTerm(doc, fld, key)
    ensures Upsert(Upsert(docs, fld, key, doc), fld, key, doc') == Upsert(docs, fld, key, doc')
  {
    var w := Without(docs, fld, key);
    WithoutAppend(w, [doc], fld, key);
    forall i | 0 <= i < |w|
      ensures !HasTerm(w[i], fld, key)
    {
      assert w[i] in w;
    }
    WithoutNothingToDelete(w, fld, key);
    assert Without([doc], fld, key) == [];
  }

  /** Upserting the same document again changes nothing. */
  lemma UpsertIdempotent(docs: seq<Document>, fld: string, key: string, doc: Document)
    requires HasTerm(doc, fld, key)
    ensures Upsert(Upsert(docs, fld, key, doc), fld, key, doc) == Upsert(docs, fld, key, doc)
  {
    UpsertReplaces(docs, fld, key, doc, doc);
  }

  lemma {:induction false} WithoutKeepsUnique(docs: seq<Document>, fld: string, key: string)
    requires UniqueKeys(docs, fld)
    ensures UniqueKeys(Without(docs, fld, key), fld)
    decreases |docs|
  {
    if docs != [] {
      var rest := Without(docs[1..], fld, key);
      assert UniqueKeys(docs[1..], fld) by {
        forall i, j, v | 0 <= i < |docs[1..]| && 0 <= j < |docs[1..]| && i != j && HasTerm(docs[1..][i], fld, v)
          ensures !HasTerm(docs[1..][j], fld, v)
        {
          assert docs[1..][i] == docs[i + 1] && docs[1..][j] == docs[j + 1];
        }
      }
      WithoutKeepsUnique(docs[1..], fld, key);
      if !HasTerm(docs[0], fld, key) {
        var r := [docs[0]] + rest;
        forall i, j, v | 0 <= i < |r| && 0 <= j < |r| && i != j && HasTerm(r[i], fld, v)
          ensures !HasTerm(r[j], fld, v)
        {
          if i == 0 && j > 0 {
            NotSharedWithHead(docs, fld, r[j], v);
          } else if j == 0 && i > 0 {
            NotSharedWithHead(docs, fld, r[i], v);
          } else if i > 0 && j > 0 {
            assert rest[i - 1] == r[i] && rest[j - 1] == r[j];
          }
        }
      }
    }
  }

  /** A document of the tail does not share a key value with the head. */
  lemma NotSharedWithHead(docs: seq<Document>, fld: string, d: Document, v: string)
    requires UniqueKeys(docs, fld) && |docs| > 0
    requires d in docs[1..]
    ensures HasTerm(docs[0], fld, v) ==> !HasTerm(d, fld, v)
  {
    var j :| 0 <= j < |docs[1..]| && docs[1..][j] == d;
    assert docs[j + 1] == d;
  }

  /** Replace-by-key keeps keys unique when the new document carries the
      one key it is written under. */
  lemma UpsertKeepsUniqueKeys(docs: seq<Document>, fld: string, key: string, doc: Document)
    requires UniqueKeys(docs, fld) && KeyedBy(doc, fld, key)
    ensures UniqueKeys(Upsert(docs, fld, key, doc), fld)
  {
    var w := Without(docs, fld, key);
    WithoutKeepsUnique(docs, fld, key);
    var r := Upsert(docs, fld, key, doc);
    forall i, j, v | 0 <= i < |r| && 0 <= j < |r| && i != j && HasTerm(r[i], fld, v)
      ensures !HasTerm(r[j], fld, v)
    {
      if i < |w| && j < |w| {
        assert r[i] == w[i] && r[j] == w[j];
      } else if i < |w| {
        assert r[i] == w[i] && w[i] in w;
      } else if j < |w| {
        assert r[j] == w[j] && w[j] in w;
      }
    }
  }

  /** The number of documents that hold the term `(fld, key)`. */
  function CountHolding(docs: seq<Document>, fld: string, key: string): nat
    decreases |docs|
  {
    if docs == [] then 0
    else (if HasTerm(docs[0], fld, key) then 1 else 0) + CountHolding(docs[1..], fld, key)
  }

  lemma {:induction false} WithoutLength(docs: seq<Document>, fld: string, key: string)
    ensures |Without(docs, fld, key)| == |docs| - CountHolding(docs, fld, key)
    decreases |docs|
  {
    if docs != [] {
      WithoutLength(docs[1..], fld, key);
    }
  }

  lemma {:induction false} UniqueCount(docs: seq<Document>, fld: string, key: string)
    requires UniqueKeys(docs, fld)
    ensures CountHolding(docs, fld, key) == if exists i :: 0 <= i < |docs| && HasTerm(docs[i], fld, key) then 1 else 0
    decreases |docs|
  {
    if docs != [] {
      assert UniqueKeys(docs[1..], fld) by {
        forall i, j, v | 0 <= i < |docs[1..]| && 0 <= j < |docs[1..]| && i != j && HasTerm(docs[1..][i], fld, v)
          ensures !HasTerm(docs[1..][j], fld, v)
        {
          assert docs[1..][i] == docs[i + 1] && docs[1..][j] == docs[j + 1];
        }
      }
      UniqueCount(docs[1..], fld, key);
      if HasTerm(docs[0], fld, key) {
        forall i | 0 <= i < |docs[1..]|
          ensures !HasTerm(docs[1..][i], fld, key)
        {
          assert docs[1..][i] == docs[i + 1];
        }
      } else if exists i :: 0 <= i < |docs| && HasTerm(docs[i], fld, key) {
        var i :| 0 <= i < |docs| && HasTerm(docs[i], fld, key);
        assert docs[1..][i - 1] == docs[i];
      } else {
        forall i | 0 <= i < |docs[1..]|
          ensures !HasTerm(docs[1..][i], fld, key)
        {
          assert docs[1..][i] == docs[i + 1];
        }
      }
    }
  }

  /** Over an index with unique keys, an upsert adds one document for a new
      key and keeps the count for a key already present. */
  lemma UpsertCount(docs: seq<Document>, fld: string, key: string, doc: Document)
    requires UniqueKeys(docs, fld)
    ensures |Upsert(docs, fld, key, doc)| ==
              |docs| + (if exists i :: 0 <= i < |docs| && HasTerm(docs[i], fld, key) then 0 else 1)
  {
    WithoutLength(docs, fld, key);
    UniqueCount(docs, fld, key);
  }

  /** The guards of `addDocument`: a writer, a document, a field name and a
      key, neither null nor empty. */
  predicate Accepts(writerOpen: bool, idFld: Option<string>, id: Option<string>, doc: Option<Document>): (r: bool)
    ensures r ==> idFld.Some? && |idFld.value| > 0 && id.Some? && |id.value| > 0
  {
    writerOpen && doc.Some? && !IsEmpty(idFld) && !IsEmpty(id)
  }

  /** A compiled query's test of one document (Lucene's own matching). */
  type Matcher = Document -> bool

  /** The BooleanQuery of two SHOULD clauses. */
  function Either(a: Matcher, b: Matcher): (m: Matcher)
    ensures forall d :: m(d) <==> a(d) || b(d)
  {
    d => a(d) || b(d)
  }

  /** `ranking` lists, best first and each once, the positions of exactly the
      documents the query matches. */
  ghost predicate IsRanking(ranking: seq<nat>, docs: seq<Document>, q: Matcher) {
    && (forall k :: 0 <= k < |ranking| ==> ranking[k] < |docs| && q(docs[ranking[k]]))
    && (forall j, k :: 0 <= j < k < |ranking| ==> ranking[j] != ranking[k])
    && (forall i :: 0 <= i < |docs| && q(docs[i]) ==> i in ranking)
  }

  /** The hit window of `queryByKw` for a page: `start = (pageNo-1)*pageSize`,
      `end = min(start+pageSize, hits.length)`, in Java `int` arithmetic. */
  datatype Window = Window(start: int, end: int)

  /** The window `queryByKw` reads out of `matched` ranked hits, or the
      exception it throws: `search` with `start+pageSize <= 0` hits rejects the
      count, and a negative `start` below `end` indexes out of the array. */
  function KwWindow(pageNo: Int32, pageSize: Int32, matched: nat): (r: Result<Window, Throwable>)
    ensures r.Ok? ==> r.value.end <= matched
    ensures r.Ok? && r.value.start < r.value.end ==>
              0 <= r.value.start && r.value.end - r.value.start <= pageSize
  {
    var start := Mul32(Sub32(pageNo, 1), pageSize);
    var n := Add32(start, pageSize);
    if n <= 0 then Err(IllegalArgument)
    else
      var hits := Min(n, matched);
      var end := Min(Add32(start, pageSize), hits);
      if start < end && start < 0 then Err(ArrayIndexOutOfBounds)
      else Ok(Window(start, end))
  }

  /** For a positive page number and size whose product fits in an `int`,
      page `pageNo` is hits `(pageNo-1)*pageSize` up to `pageNo*pageSize`,
      cut at the number of matches, and it is empty once the start reaches
      that number. */
  lemma KwWindowInRange(pageNo: Int32, pageSize: Int32, matched: nat)
    requires 1 <= pageNo && 1 <= pageSize && pageNo * pageSize < 0x8000_0000
    ensures KwWindow(pageNo, pageSize, matched) ==
              Ok(Window((pageNo - 1) * pageSize, Min(pageNo * pageSize, matched)))
    ensures (pageNo - 1) * pageSize >= matched <==>
              (pageNo - 1) * pageSize >= Min(pageNo * pageSize, matched)
  {
    var s, q := (pageNo - 1) * pageSize, pageNo * pageSize;
    MulPred(pageNo, pageSize);
    MulNonNeg(pageNo - 1, pageSize);
    assert 0 <= s == q - pageSize;
    assert Sub32(pageNo, 1) == pageNo - 1;
    assert Mul32(pageNo - 1, pageSize) == s;
    assert Add32(s, pageSize) == q;
  }

  lemma MulPred(a: int, b: int)
    ensures (a - 1) * b == a * b - b
  {
  }

  lemma MulNonNeg(a: int, b: int)
    requires 0 <= a && 0 <= b
    ensures 0 <= a * b
  {
  }

  /** One `addDocument` call, recorded so that callers can state how often
      and with what they call it. */
  datatype AddCall = AddCall(idFld: Option<string>, id: Option<string>, doc: Option<Document>)

  class IdxService {
    /** Whether the constructor managed to open the IndexWriter. */
    var writerOpen: bool
    /** The live documents. */
    var docs: seq<Document>
    ghost var calls: seq<AddCall>

    /** `openSucceeded` is the outcome of opening the index directory; `existing`
        the documents already in it. */
    constructor (openSucceeded: bool, existing: seq<Document>)
      ensures writerOpen == openSucceeded && docs == (if openSucceeded then existing else []) && calls == []
    {
      writerOpen := openSucceeded;
      docs := if openSucceeded then existing else [];
      calls := [];
    }

    method AddDocument(idFld: Option<string>, id: Option<string>, doc: Option<Document>) returns (ok: bool)
      modifies this
      ensures calls == old(calls) + [AddCall(idFld, id, doc)]
      ensures writerOpen == old(writerOpen)
      ensures ok == Accepts(old(writerOpen), idFld, id, doc)
      ensures docs == if ok then Upsert(old(docs), idFld.value, id.value, doc.value) else old(docs)
    {
      calls := calls + [AddCall(idFld, id, doc)];
      if !writerOpen || doc.None? {
        return false;
      }
      if IsEmpty(idFld) || IsEmpty(id) {
        return false;
      }
      docs := Without(docs, idFld.value, id.value) + [doc.value];
      ok := true;
    }

    method GetTotalDocumentCount() returns (r: Result<nat, Throwable>)
      ensures writerOpen ==> r == Ok(|docs|)
      ensures !writerOpen ==> r == Err(NullPointer)
    {
      if !writerOpen {
        return Err(NullPointer);
      }
      r := Ok(|docs|);
    }

    /** The stored documents of hits `lo` up to `hi`, in rank order. */
    method CollectHits(hits: seq<nat>, lo: int, hi: int) returns (out: seq<Document>)
      requires 0 <= lo <= hi <= |hits|
      requires forall k :: lo <= k < hi ==> hits[k] < |docs|
      ensures |out| == hi - lo
      ensures forall k :: 0 <= k < |out| ==> out[k] == docs[hits[lo + k]]
    {
      out := [];
      var i := lo;
      while i < hi
        invariant lo <= i <= hi
        invariant |out| == i - lo
        invariant forall k :: 0 <= k < |out| ==> out[k] == docs[hits[lo + k]]
      {
        out := out + [docs[hits[i]]];
        i := i + 1;
      }
    }

    /** `queryByKw`: page `pageNo` of the title query's ranked hits. */
    method QueryByKw(titleQuery: Option<Matcher>, ranking: seq<nat>, pageNo: Int32, pageSize: Int32)
      returns (r: Result<seq<Document>, Throwable>)
      requires titleQuery.Some? ==> IsRanking(ranking, docs, titleQuery.value)
      ensures !writerOpen ==> r == Err(NullPointer)
      ensures writerOpen && titleQuery.None? ==> r == Err(QuerySyntax)
      ensures writerOpen && titleQuery.Some? && KwWindow(pageNo, pageSize, |ranking|).Err? ==>
                r == Err(KwWindow(pageNo, pageSize, |ranking|).error)
      ensures writerOpen && titleQuery.Some? && KwWindow(pageNo, pageSize, |ranking|).Ok? ==>
                var w := KwWindow(pageNo, pageSize, |ranking|).value;
                && r.Ok?
                && |r.value| == (if w.start < w.end then w.end - w.start else 0)
                && forall k :: 0 <= k < |r.value| ==> r.value[k] == docs[ranking[w.start + k]]
      ensures r.Ok? && |r.value| > 0 ==> |r.value| <= pageSize
      ensures r.Ok? && titleQuery.Some? ==> forall k :: 0 <= k < |r.value| ==> titleQuery.value(r.value[k])
    {
      if !writerOpen {
        return Err(NullPointer);
      }
      if titleQuery.None? {
        return Err(QuerySyntax);
      }
      var start := Mul32(Sub32(pageNo, 1), pageSize);
      var n := Add32(start, pageSize);
      if n <= 0 {
        return Err(IllegalArgument);
      }
      var hits := ranking[..Min(n, |ranking|)];
      var end := Min(Add32(start, pageSize), |hits|);
      if start < end && start < 0 {
        return Err(ArrayIndexOutOfBounds);
      }
      var results := [];
      if start < end {
        results := CollectHits(hits, start, end);
      }
      r := Ok(results);
    }

    /** `queryByField`: the first `pageSize` ranked hits of a query on one field. */
    method QueryByField(query: Option<Matcher>, ranking: seq<nat>, pageSize: Int32)
      returns (r: Result<seq<Document>, Throwable>)
      requires query.Some? ==> IsRanking(ranking, docs, query.value)
      ensures !writerOpen ==> r == Err(NullPointer)
      ensures writerOpen && query.None? ==> r == Err(QuerySyntax)
      ensures writerOpen && query.Some? && pageSize <= 0 ==> r == Err(IllegalArgument)
      ensures writerOpen && query.Some? && pageSize > 0 ==>
                && r.Ok?
                && |r.value| == Min(pageSize, |ranking|)
                && forall k :: 0 <= k < |r.value| ==> r.value[k] == docs[ranking[k]]
      ensures r.Ok? && query.Some? ==> forall k :: 0 <= k < |r.value| ==> query.value(r.value[k])
      ensures r.Ok? && query.Some? && |r.value| < pageSize ==>
                forall i :: 0 <= i < |docs| && query.value(docs[i]) ==> docs[i] in r.value
    {
      if !writerOpen {
        return Err(NullPointer);
      }
      if query.None? {
        return Err(QuerySyntax);
      }
      if pageSize <= 0 {
        return Err(IllegalArgument);
      }
      var hits := ranking[..Min(pageSize, |ranking|)];
      var results := CollectHits(hits, 0, |hits|);
      RankedComplete(ranking, query.value, results);
      r := Ok(results);
    }

    /** `queryTitleAndContent`: the first `pageSize` ranked hits of
        "title matches OR content matches". */
    method QueryTitleAndContent(titleQuery: Option<Matcher>, contentQuery: Option<Matcher>, ranking: seq<nat>, pageSize: Int32)
      returns (r: Result<seq<Document>, Throwable>)
      requires titleQuery.Some? && contentQuery.Some? ==>
                 IsRanking(ranking, docs, Either(titleQuery.value, contentQuery.value))
      ensures !writerOpen ==> r == Err(NullPointer)
      ensures writerOpen && (titleQuery.None? || contentQuery.None?) ==> r == Err(QuerySyntax)
      ensures writerOpen && titleQuery.Some? && contentQuery.Some? && pageSize <= 0 ==> r == Err(IllegalArgument)
      ensures writerOpen && titleQuery.Some? && contentQuery.Some? && pageSize > 0 ==>
                && r.Ok?
                && |r.value| == Min(pageSize, |ranking|)
                && forall k :: 0 <= k < |r.value| ==> r.value[k] == docs[ranking[k]]
      ensures r.Ok? && titleQuery.Some? && contentQuery.Some? ==> forall k :: 0 <= k < |r.value| ==>
                titleQuery.value(r.value[k]) || contentQuery.value(r.value[k])
      ensures r.Ok? && titleQuery.Some? && contentQuery.Some? && |r.value| < pageSize ==>
                forall i :: 0 <= i < |docs| && (titleQuery.value(docs[i]) || contentQuery.value(docs[i])) ==>
                  docs[i] in r.value
    {
      if !writerOpen {
        return Err(NullPointer);
      }
      if titleQuery.None? || contentQuery.None? {
        return Err(QuerySyntax);
      }
      if pageSize <= 0 {
        return Err(IllegalArgument);
      }
      var q := Either(titleQuery.value, contentQuery.value);
      var hits := ranking[..Min(pageSize, |ranking|)];
      var results := CollectHits(hits, 0, |hits|);
      RankedComplete(ranking, q, results);
      r := Ok(results);
    }

    /** When every ranked hit was read out, every matching document is among
        the results. */
    lemma RankedComplete(ranking: seq<nat>, q: Matcher, results: seq<Document>)
      requires IsRanking(ranking, docs, q)
      requires |results| <= |ranking|
      requires forall k :: 0 <= k < |results| ==> results[k] == docs[ranking[k]]
      ensures |results| == |ranking| ==> forall i :: 0 <= i < |docs| && q(docs[i]) ==> docs[i] in results
    {
      if |results| == |ranking| {
        forall i | 0 <= i < |docs| && q(docs[i])
          ensures docs[i] in results
        {
          var k :| 0 <= k < |ranking| && ranking[k] == i;
          assert results[k] == docs[i];
        }
      }
    }
  }
}
