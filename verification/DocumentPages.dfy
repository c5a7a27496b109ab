/** Listing the documents of the database in pages, with the chunks of each. */
module DocumentPages {
  import opened Options
  import opened FileUri
  import opened Records
  import opened Sets

  // ---- The listing --------------------------------------------------------------------------------------------

  datatype Document = Document(id: int, fileUri: string, docType: string, chunks: seq<int>)

  datatype Page = Page(offset: int, limit: int, remaining: int, docs: seq<Document>)

  function DocumentIds(rows: map<int, Row>): set<int> { set id | id in rows && rows[id].parentId == id }

  function ChunkIds(rows: map<int, Row>, documentId: int): set<int> {
    set id | id in rows && rows[id].parentId == documentId && id != rows[id].parentId
  }

  function DocumentOf(rows: map<int, Row>, id: int): Document
    requires id in rows
  {
    Document(id, Decanonize(rows[id].filePath), rows[id].docType, Sorted(ChunkIds(rows, id)))
  }

  /** All documents of the table, in the order of their ids. */
  function Documents(rows: map<int, Row>): (docs: seq<Document>)
    ensures |docs| == |DocumentIds(rows)|
  {
    var ids := Sorted(DocumentIds(rows));
    assert forall i | 0 <= i < |ids| :: ids[i] in DocumentIds(rows);
    seq(|ids|, i requires 0 <= i < |ids| => DocumentOf(rows, ids[i]))
  }

  /** The range of the ordered documents that a query with LIMIT and OFFSET returns; a limit of -1 is none. */
  function Range(total: nat, offset: nat, limit: int): (nat, nat)
    requires limit >= -1
  {
    var from := if offset < total then offset else total;
    (from, if limit == -1 || from + limit > total then total else from + limit)
  }

  datatype PageError = NegativeOffset | NegativeLimit

  method GetDocuments(rows: map<int, Row>, offset: int, limit: int) returns (result: Result<Page, PageError>)
    ensures offset < 0 ==> result == Err(NegativeOffset)
    ensures offset >= 0 && limit < -1 ==> result == Err(NegativeLimit)
    ensures offset >= 0 && limit >= -1 ==>
              result == Ok(PageOf(rows, offset, limit))
  {
    if offset < 0 {
      return Err(NegativeOffset);
    }
    if limit < -1 {
      return Err(NegativeLimit);
    }
    hide Documents, Range;
    RangeFits(|DocumentIds(rows)|, offset, limit);
    var total := |DocumentIds(rows)|;
    var range := Range(total, offset, limit);
    var docs := ListDocuments(rows, range.0, range.1);
    result := Ok(Page(offset, |docs|, if total - offset - |docs| > 0 then total - offset - |docs| else 0, docs));
  }

  lemma RangeFits(total: nat, offset: nat, limit: int)
    requires limit >= -1
    ensures var range := Range(total, offset, limit); range.0 <= range.1 <= total
  {}

  method ListDocuments(rows: map<int, Row>, first: nat, last: nat) returns (docs: seq<Document>)
    requires first <= last <= |DocumentIds(rows)|
    ensures docs == Documents(rows)[first..last]
  {
    hide Documents, DocumentOf, Sorted, DocumentIds;
    var ids := Sorted(DocumentIds(rows));
    docs := [];
    for i := first to last
      invariant docs == Documents(rows)[first..i]
    {
      DocumentsAt(rows, i);
      docs := docs + [DocumentOf(rows, ids[i])];
    }
  }

  lemma DocumentsAt(rows: map<int, Row>, i: nat)
    requires i < |DocumentIds(rows)|
    ensures var id := Sorted(DocumentIds(rows))[i]; id in rows && Documents(rows)[i] == DocumentOf(rows, id)
  {
    hide Sorted, DocumentOf;
  }

  function PageOf(rows: map<int, Row>, offset: nat, limit: int): Page
    requires limit >= -1
  {
    var all := Documents(rows);
    var range := Range(|all|, offset, limit);
    var docs := all[range.0..range.1];
    Page(offset, |docs|, if |all| - offset - |docs| > 0 then |all| - offset - |docs| else 0, docs)
  }

  // ---- The validator ------------------------------------------------------------------------------------------

  /** A response as its reader finds it; a field is None when it is missing or not of its type. */
  datatype Response =
    | NotAnObject
    | ErrorResponse
    | Response(offset: Option<int>, limit: Option<int>, remaining: Option<int>, docs: Option<seq<Document>>)

  datatype Invalid =
    | NonObject | Failed | InvalidPagination | NoDocs | OtherOffset | OtherLimit | NegativeRemaining | NoProgress

  function ValidatePage(response: Response, expectedOffset: int): Result<(int, int), Invalid> {
    if response.NotAnObject? then Err(NonObject)
    else if response.ErrorResponse? then Err(Failed)
    else if response.offset.None? || response.limit.None? || response.remaining.None? then Err(InvalidPagination)
    else if response.docs.None? then Err(NoDocs)
    else if response.offset.value != expectedOffset then Err(OtherOffset)
    else if response.limit.value != |response.docs.value| then Err(OtherLimit)
    else if response.remaining.value < 0 then Err(NegativeRemaining)
    else if response.remaining.value > 0 && response.limit.value == 0 then Err(NoProgress)
    else Ok((response.limit.value, response.remaining.value))
  }

  function ResponseOf(page: Page): Response {
    Response(Some(page.offset), Some(page.limit), Some(page.remaining), Some(page.docs))
  }

  /** A response is accepted if and only if it is complete, starts where it was asked to, counts its documents, and does
      not say that documents remain without bringing one. */
  lemma ValidIff(response: Response, expectedOffset: int)
    ensures ValidatePage(response, expectedOffset).Ok? <==>
              && response.Response? && response.offset == Some(expectedOffset)
              && response.docs.Some? && response.limit == Some(|response.docs.value|)
              && response.remaining.Some? && response.remaining.value >= 0
              && (response.remaining.value != 0 ==> response.docs.value != [])
    ensures ValidatePage(response, expectedOffset).Ok? ==>
              ValidatePage(response, expectedOffset).value == (response.limit.value, response.remaining.value)
  {}

  /** No page of the listing is rejected; it starts where it is asked to, it makes progress unless nothing is left, and
      what it says is left is what is left. */
  lemma PagesAreValid(rows: map<int, Row>, offset: nat, batchSize: nat)
    requires batchSize > 0 && offset <= |Documents(rows)|
    ensures var page := PageOf(rows, offset, batchSize);
            && ValidatePage(ResponseOf(page), offset) == Ok((page.limit, page.remaining))
            && page.docs == Documents(rows)[offset..offset + page.limit]
            && 0 <= page.limit <= batchSize && page.remaining >= 0
            && offset + page.limit + page.remaining == |Documents(rows)|
            && (page.remaining > 0 ==> page.limit == batchSize)
  {
    hide Documents;
  }

  // ---- Chunks -------------------------------------------------------------------------------------------------

  /** The chunks of the documents; a row whose parent is not a document is none. */
  function StoredChunks(rows: map<int, Row>): set<int> {
    set id | id in rows && rows[id].parentId in DocumentIds(rows) && id != rows[id].parentId
  }

  datatype ChunkRecord = ChunkRecord(id: int, docId: int, chunkNum: nat)

  function RecordsOfOne(document: Document, k: nat): (records: seq<ChunkRecord>)
    requires k <= |document.chunks|
    ensures |records| == k
    ensures forall i | 0 <= i < k :: records[i] == ChunkRecord(document.chunks[i], document.id, i)
  {
    seq(k, i requires 0 <= i < k => ChunkRecord(document.chunks[i], document.id, i))
  }

  /** The chunk records of documents, in order. */
  function RecordsOf(docs: seq<Document>): seq<ChunkRecord> {
    if docs == [] then []
    else
      var last := docs[|docs| - 1];
      RecordsOf(docs[..|docs| - 1]) + RecordsOfOne(last, |last.chunks|)
  }

  ghost predicate DistinctChunks(records: seq<ChunkRecord>) {
    forall i, j | 0 <= i < j < |records| :: records[i].id != records[j].id
  }

  /** The records of a page, unless a chunk occurs twice in it. */
  method ExtractChunkRecords(docs: seq<Document>) returns (result: Option<seq<ChunkRecord>>)
    ensures result == if DistinctChunks(RecordsOf(docs)) then Some(RecordsOf(docs)) else None
  {
    var records: seq<ChunkRecord>, seen: set<int> := [], {};
    for d := 0 to |docs|
      invariant records == RecordsOf(docs[..d]) && DistinctChunks(records)
      invariant forall id :: id in seen <==> exists r :: r in records && r.id == id
    {
      var document := docs[d];
      ghost var before := records;
      assert docs[..d + 1][..d] == docs[..d];
      for chunkNum := 0 to |document.chunks|
        invariant records == before + RecordsOfOne(document, chunkNum) && DistinctChunks(records)
        invariant forall id :: id in seen <==> exists r :: r in records && r.id == id
      {
        var chunkId := document.chunks[chunkNum];
        var record := ChunkRecord(chunkId, document.id, chunkNum);
        assert before + RecordsOfOne(document, chunkNum + 1) == records + [record];
        if chunkId in seen {
          RepeatsStay(docs, d, records, record);
          return None;
        }
        SeenGrows(records, record, seen);
        seen, records := seen + {chunkId}, records + [record];
      }
    }
    assert docs[..|docs|] == docs;
    result := Some(records);
  }

  lemma SeenGrows(records: seq<ChunkRecord>, record: ChunkRecord, seen: set<int>)
    requires forall id :: id in seen <==> exists r :: r in records && r.id == id
    requires record.id !in seen && DistinctChunks(records)
    ensures DistinctChunks(records + [record])
    ensures forall id :: id in seen + {record.id} <==> exists r :: r in records + [record] && r.id == id
  {
    forall i | 0 <= i < |records| ensures records[i].id != record.id {
      assert records[i] in records;
    }
    assert record in records + [record];
    assert forall r :: r in records + [record] <==> r in records || r == record;
  }

  /** A chunk that occurs twice near the beginning occurs twice in all. */
  lemma RepeatsStay(docs: seq<Document>, d: nat, records: seq<ChunkRecord>, record: ChunkRecord)
    requires d < |docs| && exists r :: r in records && r.id == record.id
    requires records + [record] <= RecordsOf(docs[..d + 1])
    ensures !DistinctChunks(RecordsOf(docs))
  {
    hide RecordsOf;
    RecordsPrefix(docs, d + 1);
    var r :| r in records && r.id == record.id;
    var i :| 0 <= i < |records| && records[i] == r;
    var all := RecordsOf(docs);
    assert all[i] == (records + [record])[i] && all[|records|] == (records + [record])[|records|];
  }

  lemma {:induction false} RecordsPrefix(docs: seq<Document>, d: nat)
    requires d <= |docs|
    ensures RecordsOf(docs[..d]) <= RecordsOf(docs)
    decreases |docs|
  {
    if d < |docs| {
      var last := |docs| - 1;
      RecordsPrefix(docs[..last], d);
      assert docs[..last][..d] == docs[..d];
    } else {
      assert docs[..d] == docs;
    }
  }

  lemma {:induction false} RecordsConcat(a: seq<Document>, b: seq<Document>)
    ensures RecordsOf(a + b) == RecordsOf(a) + RecordsOf(b)
    decreases |b|
  {
    hide RecordsOfOne;
    if b == [] {
      assert a + b == a;
    } else {
      var last := |b| - 1;
      assert (a + b)[..|a + b| - 1] == a + b[..last] && (a + b)[|a + b| - 1] == b[last];
      RecordsConcat(a, b[..last]);
    }
  }

  /** A record of a table is about a chunk of the document that it names. */
  ghost predicate FromTable(rows: map<int, Row>, record: ChunkRecord) {
    && record.id in rows && rows[record.id].parentId == record.docId && record.id != record.docId
    && record.docId in DocumentIds(rows)
  }

  /** The records of the first `d` documents are about their chunks, all of them and each once. */
  lemma {:induction false} TableRecords(rows: map<int, Row>, d: nat)
    requires d <= |Documents(rows)|
    ensures var records, ids := RecordsOf(Documents(rows)[..d]), Sorted(DocumentIds(rows));
            && DistinctChunks(records)
            && (forall r | r in records :: FromTable(rows, r) && r.docId in ids[..d])
            && forall id | id in rows && id != rows[id].parentId && rows[id].parentId in ids[..d] ::
                 exists r :: r in records && r.id == id
  {
    hide FromTable, DocumentOf, Sorted, RecordsOfOne;
    var all, ids := Documents(rows), Sorted(DocumentIds(rows));
    if d > 0 {
      var last := d - 1;
      TableRecords(rows, last);
      assert all[..d][..last] == all[..last];
      DocumentsAt(rows, last);
      var before, own := RecordsOf(all[..last]), RecordsOfOne(all[last], |all[last].chunks|);
      assert RecordsOf(all[..d]) == before + own;
      OwnRecords(rows, ids[last]);
      OthersBefore(ids, last, DocumentIds(rows));
      JoinDistinct(rows, before, own, ids, last);
      AllListed(rows, before, own, ids, last);
    }
  }

  lemma OthersBefore(ids: seq<int>, last: nat, all: set<int>)
    requires ids == Sorted(all) && last < |ids|
    ensures ids[last] !in ids[..last] && ids[last] in all
  {
    forall i | 0 <= i < last ensures ids[i] != ids[last] {
      SortedIncreases(all, i, last);
    }
  }

  lemma OwnRecords(rows: map<int, Row>, id: int)
    requires id in DocumentIds(rows)
    ensures var own := RecordsOfOne(DocumentOf(rows, id), |DocumentOf(rows, id).chunks|);
            && DistinctChunks(own)
            && (forall r | r in own :: FromTable(rows, r) && r.docId == id)
            && forall chunk | chunk in ChunkIds(rows, id) :: exists r :: r in own && r.id == chunk
  {
    var chunks := Sorted(ChunkIds(rows, id));
    var own := RecordsOfOne(DocumentOf(rows, id), |chunks|);
    forall i, j | 0 <= i < j < |own| ensures own[i].id != own[j].id {
      SortedIncreases(ChunkIds(rows, id), i, j);
    }
    forall r | r in own ensures FromTable(rows, r) && r.docId == id {
      var i :| 0 <= i < |own| && own[i] == r;
      assert chunks[i] in ChunkIds(rows, id);
    }
    forall chunk | chunk in ChunkIds(rows, id) ensures exists r :: r in own && r.id == chunk {
      SortedHas(ChunkIds(rows, id), chunk);
      var i :| 0 <= i < |chunks| && chunks[i] == chunk;
      assert own[i] in own;
    }
  }

  lemma JoinDistinct(rows: map<int, Row>, before: seq<ChunkRecord>, own: seq<ChunkRecord>, ids: seq<int>, last: nat)
    requires last < |ids| && ids[last] !in ids[..last]
    requires DistinctChunks(before) && forall r | r in before :: FromTable(rows, r) && r.docId in ids[..last]
    requires DistinctChunks(own) && forall r | r in own :: FromTable(rows, r) && r.docId == ids[last]
    ensures DistinctChunks(before + own)
    ensures forall r | r in before + own :: FromTable(rows, r) && r.docId in ids[..last + 1]
  {
    var all := before + own;
    forall i, j | 0 <= i < j < |all| ensures all[i].id != all[j].id {
      if i < |before| <= j {
        assert all[i] in before && all[j] in own;
      }
    }
    assert ids[..last + 1] == ids[..last] + [ids[last]];
  }

  lemma AllListed(rows: map<int, Row>, before: seq<ChunkRecord>, own: seq<ChunkRecord>, ids: seq<int>, last: nat)
    requires last < |ids|
    requires forall id | id in rows && id != rows[id].parentId && rows[id].parentId in ids[..last] ::
               exists r :: r in before && r.id == id
    requires forall id | id in ChunkIds(rows, ids[last]) :: exists r :: r in own && r.id == id
    ensures forall id | id in rows && id != rows[id].parentId && rows[id].parentId in ids[..last + 1] ::
              exists r :: r in before + own && r.id == id
  {
    forall id | id in rows && id != rows[id].parentId && rows[id].parentId in ids[..last + 1]
      ensures exists r :: r in before + own && r.id == id
    {
      assert ids[..last + 1] == ids[..last] + [ids[last]];
      if rows[id].parentId in ids[..last] {
        var r :| r in before && r.id == id;
        assert r in before + own;
      } else {
        assert id in ChunkIds(rows, ids[last]);
        var r :| r in own && r.id == id;
        assert r in before + own;
      }
    }
  }

  /** The listing names every stored chunk exactly once, and nothing else. */
  lemma ListingIsComplete(rows: map<int, Row>)
    ensures var records := RecordsOf(Documents(rows));
            && DistinctChunks(records)
            && (forall r | r in records :: FromTable(rows, r))
            && forall id :: id in StoredChunks(rows) <==> exists r :: r in records && r.id == id
  {
    hide RecordsOf;
    var all, ids := Documents(rows), Sorted(DocumentIds(rows));
    assert all[..|all|] == all && ids[..|ids|] == ids;
    TableRecords(rows, |all|);
    forall id | id in StoredChunks(rows) ensures rows[id].parentId in ids {
      SortedHas(DocumentIds(rows), rows[id].parentId);
    }
  }

  /** The document has the path and the type of its row, and its chunks in the order of their ids. */
  ghost predicate Tells(rows: map<int, Row>, d: Document) {
    && d.id in rows && rows[d.id].parentId == d.id
    && d.fileUri == Decanonize(rows[d.id].filePath) && d.docType == rows[d.id].docType
    && (forall chunk :: chunk in d.chunks <==> chunk in rows && rows[chunk].parentId == d.id && chunk != d.id)
    && forall i, j | 0 <= i < j < |d.chunks| :: d.chunks[i] < d.chunks[j]
  }

  /** Every document of a page tells what its row says, and they are in the order of their ids. */
  lemma PageTells(rows: map<int, Row>, offset: nat, limit: int)
    requires limit >= -1
    ensures var docs := PageOf(rows, offset, limit).docs;
            && (forall d | d in docs :: Tells(rows, d))
            && forall i, j | 0 <= i < j < |docs| :: docs[i].id < docs[j].id
  {
    hide Documents, Range, Sorted, Tells, DocumentIds;
    var all := Documents(rows);
    RangeFits(|all|, offset, limit);
    var first := Range(|all|, offset, limit).0;
    var docs := PageOf(rows, offset, limit).docs;
    forall i | 0 <= i < |docs| ensures docs[i] == all[first + i] && Tells(rows, docs[i]) {
      DocumentTells(rows, first + i);
    }
    forall i, j | 0 <= i < j < |docs| ensures docs[i].id < docs[j].id {
      DocumentTells(rows, first + i);
      DocumentTells(rows, first + j);
      SortedIncreases(DocumentIds(rows), first + i, first + j);
    }
  }

  lemma DocumentTells(rows: map<int, Row>, i: nat)
    requires i < |Documents(rows)|
    ensures Tells(rows, Documents(rows)[i]) && Documents(rows)[i].id == Sorted(DocumentIds(rows))[i]
  {
    hide Sorted;
    DocumentsAt(rows, i);
    var id := Sorted(DocumentIds(rows))[i];
    var chunks := ChunkIds(rows, id);
    assert id in DocumentIds(rows);
    forall chunk | chunk in chunks ensures chunk in Sorted(chunks) {
      SortedHas(chunks, chunk);
    }
    forall k, l | 0 <= k < l < |Sorted(chunks)| ensures Sorted(chunks)[k] < Sorted(chunks)[l] {
      SortedIncreases(chunks, k, l);
    }
  }
}
