/** Making the vector index hold exactly the chunks of the document store, one page of documents after another. */
module IndexSync {
  import opened Options
  import opened Sequences
  import opened Records
  import opened Sets
  import opened DocumentPages

  /** An id in the index is the decimal text of a chunk id, or some other text. */
  datatype IndexId = Chunk(id: int) | Foreign(text: string)

  /** What an upsert stores: the embedding is that of the text that was read. */
  datatype Entry = Entry(text: string, record: ChunkRecord)

  const DELETE_BATCH_SIZE: nat := 1000

  class Collection {
    var entries: map<IndexId, Entry>

    constructor (entries: map<IndexId, Entry>)
      ensures this.entries == entries
    {
      this.entries := entries;
    }

    method Upsert(id: IndexId, entry: Entry)
      modifies this
      ensures entries == old(entries)[id := entry]
    {
      entries := entries[id := entry];
    }

    method Delete(ids: seq<IndexId>)
      modifies this
      ensures entries == old(entries) - Set(ids)
    {
      entries := entries - (set id | id in ids);
    }
  }

  function Set(ids: seq<IndexId>): set<IndexId> { set id | id in ids }

  datatype SyncReport = SyncReport(created: seq<IndexId>, updated: seq<IndexId>, deleted: seq<IndexId>,
                                   synchronizedCount: nat, initialRecords: nat, chromaSize: int)

  datatype Progress = Progress(initial: set<IndexId>, source: set<IndexId>,
                               created: seq<IndexId>, updated: seq<IndexId>, deleted: seq<IndexId>)

  /** What the lists say about the index, whatever has failed. At most one id, the one in flight, has been noted as a
      source chunk without having been upserted. */
  ghost predicate Tracks(p: Progress, keys: set<IndexId>) {
    && keys == p.initial + Set(p.created) - Set(p.deleted)
    && NoRepeats(p.created) && NoRepeats(p.updated) && NoRepeats(p.deleted)
    && Set(p.created) !! p.initial && Set(p.updated) <= p.initial && Set(p.deleted) <= p.initial
    && Set(p.deleted) !! p.source
    && Set(p.created) + Set(p.updated) <= p.source
    && |p.source - Set(p.created) - Set(p.updated)| <= 1
  }

  function Report(p: Progress): SyncReport {
    SyncReport(p.created, p.updated, p.deleted, |p.created| + |p.updated|, |p.initial|,
               |p.initial| + |p.created| - |p.deleted|)
  }

  lemma {:induction false} NoRepeatsSize(ids: seq<IndexId>)
    requires NoRepeats(ids)
    ensures |Set(ids)| == |ids|
  {
    if ids != [] {
      var front, last := ids[..|ids| - 1], ids[|ids| - 1];
      NoRepeatsSize(front);
      assert last !in Set(front);
      assert Set(ids) == Set(front) + {last};
    }
  }

  /** The reported size is the number of entries of the index, at every moment. */
  lemma ReportedSizeIsActual(p: Progress, keys: set<IndexId>)
    requires Tracks(p, keys)
    ensures Report(p).chromaSize == |keys|
    ensures Report(p).synchronizedCount == |Set(p.created) + Set(p.updated)|
  {
    NoRepeatsSize(p.created);
    NoRepeatsSize(p.updated);
    NoRepeatsSize(p.deleted);
    assert |p.initial + Set(p.created)| == |p.initial| + |Set(p.created)|;
    var all := p.initial + Set(p.created);
    assert all == (all - Set(p.deleted)) + Set(p.deleted);
  }

  function Noted(p: Progress, id: IndexId): Progress { p.(source := p.source + {id}) }

  function Upserted(p: Progress, id: IndexId): Progress {
    if id in p.initial then p.(updated := p.updated + [id]) else p.(created := p.created + [id])
  }

  class ChromaSyncState {
    var initialChromaIds: set<IndexId>
    var sourceChunkIds: set<IndexId>
    var created: seq<IndexId>
    var updated: seq<IndexId>
    var deleted: seq<IndexId>

    constructor (initial: set<IndexId>)
      ensures Value() == Progress(initial, {}, [], [], [])
    {
      initialChromaIds, sourceChunkIds, created, updated, deleted := initial, {}, [], [], [];
    }

    function Value(): Progress
      reads this
    {
      Progress(initialChromaIds, sourceChunkIds, created, updated, deleted)
    }

    method HasNoted(id: IndexId) returns (noted: bool)
      ensures noted <==> id in Value().source
    {
      noted := id in sourceChunkIds;
    }

    method Note(id: IndexId)
      modifies this`sourceChunkIds
      ensures Value() == Noted(old(Value()), id)
    {
      sourceChunkIds := sourceChunkIds + {id};
    }

    method RecordUpsert(id: IndexId)
      modifies this`created, this`updated
      ensures Value() == Upserted(old(Value()), id)
    {
      if id in initialChromaIds {
        updated := updated + [id];
      } else {
        created := created + [id];
      }
    }
  }

  // ---- Deleting what is stale ---------------------------------------------------------------------------------

  /** The elements of a set, each once. */
  method ListIds(ids: set<IndexId>) returns (list: seq<IndexId>)
    ensures NoRepeats(list) && Set(list) == ids
  {
    list := [];
    var left := ids;
    while left != {}
      invariant left + Set(list) == ids && left !! Set(list) && NoRepeats(list)
      decreases |left|
    {
      ghost var some := HasElement(left);
      var id :| id in left;
      Appended(list, id);
      left, list := left - {id}, list + [id];
    }
  }

  lemma Appended(list: seq<IndexId>, id: IndexId)
    ensures Set(list + [id]) == Set(list) + {id}
    ensures NoRepeats(list) && id !in Set(list) ==> NoRepeats(list + [id])
  {
    assert forall x :: x in list + [id] <==> x in list || x == id;
    assert id !in Set(list) ==> id !in list;
  }

  lemma SetConcat(a: seq<IndexId>, b: seq<IndexId>)
    ensures Set(a + b) == Set(a) + Set(b)
    ensures NoRepeats(a) && NoRepeats(b) && Set(a) !! Set(b) ==> NoRepeats(a + b)
  {
    assert forall x :: x in a + b <==> x in a || x in b;
    if NoRepeats(a) && NoRepeats(b) && Set(a) !! Set(b) {
      forall i, j | 0 <= i < j < |a + b| ensures (a + b)[i] != (a + b)[j] {
        if i < |a| <= j {
          assert a[i] in Set(a) && b[j - |a|] in Set(b);
        }
      }
    }
  }

  /** A part of a list without repeats, and what is left of it. */
  lemma SetSlice(list: seq<IndexId>, begin: nat, end: nat)
    requires begin <= end <= |list| && NoRepeats(list)
    ensures NoRepeats(list[begin..end]) && Set(list[..end]) == Set(list[..begin]) + Set(list[begin..end])
    ensures Set(list[..begin]) !! Set(list[begin..end]) && Set(list[..end]) <= Set(list)
  {
    var a, b := list[..begin], list[begin..end];
    assert list[..end] == a + b && list == a + b + list[end..];
    SetConcat(a, b);
    SetConcat(a + b, list[end..]);
    forall x | x in b ensures x !in a {
      var j :| 0 <= j < |b| && b[j] == x;
      assert list[begin + j] == x;
      forall i | 0 <= i < begin ensures a[i] != x {
        assert list[i] != list[begin + j];
      }
    }
    forall i, j | 0 <= i < j < |b| ensures b[i] != b[j] {
      assert list[begin + i] != list[begin + j];
    }
  }

  /** How many calls it takes to delete `n` ids, a thousand at a time. */
  function Batches(n: nat): nat { (n + 999) / 1000 }

  /** Deletes in batches until a call fails; `budget` is how many more calls succeed. What has been deleted is noted
      batch by batch, and is as much as the calls that succeed can delete. */
  method DeleteChromaIds(collection: Collection, ids: seq<IndexId>, state: ChromaSyncState, budget: nat)
    returns (ok: bool)
    requires NoRepeats(ids)
    modifies collection, state`deleted
    ensures ok <==> budget >= Batches(|ids|)
    ensures var n := Min(|ids|, budget * DELETE_BATCH_SIZE);
            && state.deleted == old(state.deleted) + ids[..n]
            && collection.entries == old(collection.entries) - Set(ids[..n])
  {
    var begin, left := 0, budget;
    ghost var calls: nat := 0;
    assert Set(ids[..0]) == {};
    assert collection.entries - {} == collection.entries;
    while begin < |ids|
      invariant left >= 0 && left + calls == budget && begin == Min(|ids|, calls * DELETE_BATCH_SIZE)
      invariant calls > 0 ==> (calls - 1) * DELETE_BATCH_SIZE < |ids|
      invariant state.deleted == old(state.deleted) + ids[..begin]
      invariant collection.entries == old(collection.entries) - Set(ids[..begin])
    {
      if left == 0 {
        BatchesAre(|ids|, calls);
        return false;
      }
      left, calls := left - 1, calls + 1;
      var end := Min(begin + DELETE_BATCH_SIZE, |ids|);
      var batch := ids[begin..end];
      SetSlice(ids, begin, end);
      assert ids[..end] == ids[..begin] + batch;
      collection.Delete(batch);
      state.deleted := state.deleted + batch;
      begin := end;
    }
    assert ids[..|ids|] == ids;
    BatchesAre(|ids|, calls);
    ok := true;
  }

  lemma BatchesAre(n: nat, calls: nat)
    ensures calls < Batches(n) <==> calls * DELETE_BATCH_SIZE < n
  {}

  /** Deletes what was there at first and is no chunk, apart from what an earlier attempt has deleted already. */
  method FinalizeReconciliation(collection: Collection, state: ChromaSyncState, budget: nat)
    returns (ok: bool, report: SyncReport)
    requires Tracks(state.Value(), collection.entries.Keys)
    modifies collection, state`deleted
    ensures Tracks(state.Value(), collection.entries.Keys)
    ensures old(state.deleted) <= state.deleted
    ensures collection.entries == old(collection.entries) - Set(state.deleted[|old(state.deleted)|..])
    ensures ok ==> report == Report(state.Value())
    ensures ok ==> Set(state.deleted[|old(state.deleted)|..])
                   == state.initialChromaIds - state.sourceChunkIds - Set(old(state.deleted))
    ensures ok ==> Set(state.deleted) == state.initialChromaIds - state.sourceChunkIds
    ensures var stale := state.initialChromaIds - state.sourceChunkIds - Set(old(state.deleted));
            && (ok <==> budget >= Batches(|stale|))
            && |state.deleted| == |old(state.deleted)| + Min(|stale|, budget * DELETE_BATCH_SIZE)
  {
    ghost var before := state.Value();
    ghost var keys := collection.entries.Keys;
    var stale := state.initialChromaIds - state.sourceChunkIds - (set id | id in state.deleted);
    var pending := ListIds(stale);
    ok := DeleteChromaIds(collection, pending, state, budget);
    NoRepeatsSize(pending);
    ghost var n := Min(|pending|, budget * DELETE_BATCH_SIZE);
    assert state.deleted[|old(state.deleted)|..] == pending[..n];
    assert pending[..|pending|] == pending;
    DeletedTracks(before, keys, pending, n);
    report := Report(state.Value());
  }

  lemma DeletedTracks(p: Progress, keys: set<IndexId>, pending: seq<IndexId>, n: nat)
    requires Tracks(p, keys) && NoRepeats(pending) && Set(pending) == p.initial - p.source - Set(p.deleted)
    requires n <= |pending|
    ensures Tracks(p.(deleted := p.deleted + pending[..n]), keys - Set(pending[..n]))
    ensures n == |pending| ==> Set(p.deleted + pending[..n]) == p.initial - p.source
  {
    SetSlice(pending, 0, n);
    assert pending[0..n] == pending[..n];
    SetConcat(p.deleted, pending[..n]);
    assert n == |pending| ==> pending[..n] == pending;
  }

  // ---- One page -----------------------------------------------------------------------------------------------

  datatype SyncError =
    | Unavailable | ChunkNotFound(id: int) | DuplicateInPage | DuplicateAcrossPages
    | InvalidPage(invalid: Invalid) | InvalidBatchSize

  function IdsOf(records: seq<ChunkRecord>): set<IndexId> { set r | r in records :: Chunk(r.id) }

  /** All that has been read from the pages so far has been upserted, and nothing has been deleted. */
  ghost predicate UpToDate(p: Progress, keys: set<IndexId>) {
    && Tracks(p, keys) && p.deleted == [] && Set(p.created) + Set(p.updated) == p.source
  }

  /** The index holds these records, with the text that is read under their ids. */
  ghost predicate Holds(entries: map<IndexId, Entry>, records: seq<ChunkRecord>, read: int -> Option<string>) {
    forall r | r in records ::
      && Chunk(r.id) in entries && read(r.id).Some?
      && entries[Chunk(r.id)] == Entry(read(r.id).value, r)
  }

  lemma NotedTracks(p: Progress, keys: set<IndexId>, id: IndexId)
    requires UpToDate(p, keys) && id !in p.source
    ensures Tracks(Noted(p, id), keys)
  {
    var p' := Noted(p, id);
    assert p'.source - Set(p'.created) - Set(p'.updated) == {id};
  }

  lemma CreatedTracks(p: Progress, keys: set<IndexId>, id: IndexId)
    requires UpToDate(p, keys) && id !in p.source && id !in p.initial
    ensures UpToDate(Noted(p, id).(created := p.created + [id]), keys + {id})
  {
    hide Set, NoRepeats;
    Appended(p.created, id);
    NoIds();
  }

  lemma UpdatedTracks(p: Progress, keys: set<IndexId>, id: IndexId)
    requires UpToDate(p, keys) && id !in p.source && id in p.initial
    ensures UpToDate(Noted(p, id).(updated := p.updated + [id]), keys + {id})
  {
    hide Set, NoRepeats;
    Appended(p.updated, id);
    NoIds();
  }

  lemma NoIds()
    ensures Set([]) == {}
  {}

  lemma UpsertedTracks(p: Progress, keys: set<IndexId>, id: IndexId)
    requires UpToDate(p, keys) && id !in p.source
    ensures UpToDate(Upserted(Noted(p, id), id), keys + {id})
  {
    hide UpToDate;
    if id in p.initial {
      UpdatedTracks(p, keys, id);
    } else {
      CreatedTracks(p, keys, id);
    }
  }

  const CHUNK_CALLS: nat := 3

  /** Notes a chunk, reads it and upserts it, which takes a read, an embedding and an upsert; `budget` is how many more
      calls succeed. */
  method ReconcileOne(collection: Collection, record: ChunkRecord, read: int -> Option<string>,
                      state: ChromaSyncState, budget: nat)
    returns (error: Option<SyncError>, left: nat)
    requires UpToDate(state.Value(), collection.entries.Keys) && Chunk(record.id) !in state.Value().source
    modifies collection, state`sourceChunkIds, state`created, state`updated
    ensures Tracks(state.Value(), collection.entries.Keys)
    ensures error.None? ==>
              && UpToDate(state.Value(), collection.entries.Keys) && read(record.id).Some?
              && state.Value() == Upserted(Noted(old(state.Value()), Chunk(record.id)), Chunk(record.id))
              && collection.entries
                 == old(collection.entries)[Chunk(record.id) := Entry(read(record.id).value, record)]
              && left + CHUNK_CALLS == budget
    ensures error == if budget == 0 then Some(Unavailable)
                     else if read(record.id).None? then Some(ChunkNotFound(record.id))
                     else if budget < CHUNK_CALLS then Some(Unavailable)
                     else None
    ensures left == if error == Some(Unavailable) || budget == 0 then 0
                    else if error.Some? then budget - 1 else budget - CHUNK_CALLS
  {
    hide Tracks, UpToDate, ChromaSyncState.Value, Noted, Upserted;
    var id := Chunk(record.id);
    left := budget;
    ghost var keys := collection.entries.Keys;
    NotedTracks(state.Value(), keys, id);
    UpsertedTracks(state.Value(), keys, id);
    UpToDateTracks(Upserted(Noted(state.Value(), id), id), keys + {id});
    state.Note(id);
    if left == 0 {
      return Some(Unavailable), left;
    }
    var text := read(record.id);
    if text.None? {
      return Some(ChunkNotFound(record.id)), left - 1;
    }
    if left < CHUNK_CALLS {
      return Some(Unavailable), 0;
    }
    left := left - CHUNK_CALLS;
    collection.Upsert(id, Entry(text.value, record));
    assert collection.entries.Keys == keys + {id};
    state.RecordUpsert(id);
    error := None;
  }

  /** A failure has its cause: calls ran out, or a chunk could not be read. */
  ghost predicate IsCause(error: Option<SyncError>, records: seq<ChunkRecord>, read: int -> Option<string>,
                          budget: nat)
  {
    match error
    case None => true
    case Some(Unavailable) => budget < CHUNK_CALLS * |records|
    case Some(ChunkNotFound(id)) => Chunk(id) in IdsOf(records) && read(id).None?
    case _ => false
  }

  lemma IsAmong(records: seq<ChunkRecord>, i: nat)
    requires i < |records|
    ensures Chunk(records[i].id) in IdsOf(records)
  {}

  /** Upserts chunks one after another, until something fails: a read, an embedding, an upsert. */
  method ReconcileRecords(collection: Collection, records: seq<ChunkRecord>, read: int -> Option<string>,
                          state: ChromaSyncState, budget: nat)
    returns (error: Option<SyncError>, left: nat)
    requires UpToDate(state.Value(), collection.entries.Keys)
    modifies collection, state`sourceChunkIds, state`created, state`updated
    ensures Tracks(state.Value(), collection.entries.Keys)
    ensures error.None? ==>
              && UpToDate(state.Value(), collection.entries.Keys)
              && state.Value().source == old(state.Value()).source + IdsOf(records)
              && Holds(collection.entries, records, read)
              && Preserves(old(collection.entries), collection.entries, records)
              && left + CHUNK_CALLS * |records| == budget
    ensures IsCause(error, records, read, budget)
            || (error == Some(DuplicateAcrossPages)
                && (!DistinctChunks(records) || !(IdsOf(records) !! old(state.Value()).source)))
  {
    hide Tracks, UpToDate, Holds, IdsOf, DistinctChunks, Preserves, ChromaSyncState.Value;
    left := budget;
    UpToDateTracks(state.Value(), collection.entries.Keys);
    ghost var source0, entries0 := state.Value().source, collection.entries;
    NothingHeld(entries0, records, read, source0);
    for i := 0 to |records|
      invariant UpToDate(state.Value(), collection.entries.Keys)
      invariant state.Value().source == source0 + IdsOf(records[..i])
      invariant Holds(collection.entries, records[..i], read)
      invariant Preserves(entries0, collection.entries, records[..i])
      invariant left + CHUNK_CALLS * i == budget
    {
      var record := records[i];
      OneMore(records, i);
      UpToDateTracks(state.Value(), collection.entries.Keys);
      var noted := state.HasNoted(Chunk(record.id));
      if noted {
        Repeated(records, i, source0);
        return Some(DuplicateAcrossPages), left;
      }
      HoldsOneMore(entries0, collection.entries, records, i, read);
      error, left := ReconcileOne(collection, record, read, state, left);
      if error.Some? {
        IsAmong(records, i);
        return;
      }
    }
    AllRecords(records);
    UpToDateTracks(state.Value(), collection.entries.Keys);
    error := None;
  }

  /** One page: its chunks are extracted, which fails if one of them occurs twice, and upserted. */
  method ReconcileChroma(collection: Collection, docs: seq<Document>, read: int -> Option<string>,
                         state: ChromaSyncState, budget: nat)
    returns (error: Option<SyncError>, left: nat)
    requires UpToDate(state.Value(), collection.entries.Keys)
    modifies collection, state`sourceChunkIds, state`created, state`updated
    ensures Tracks(state.Value(), collection.entries.Keys)
    ensures error.None? ==>
              && UpToDate(state.Value(), collection.entries.Keys)
              && state.Value().source == old(state.Value()).source + IdsOf(RecordsOf(docs))
              && Holds(collection.entries, RecordsOf(docs), read)
              && Preserves(old(collection.entries), collection.entries, RecordsOf(docs))
              && left + CHUNK_CALLS * |RecordsOf(docs)| == budget
    ensures DistinctChunks(RecordsOf(docs)) && IdsOf(RecordsOf(docs)) !! old(state.Value()).source ==>
              IsCause(error, RecordsOf(docs), read, budget)
  {
    hide Tracks, UpToDate, Holds, IdsOf, DistinctChunks, RecordsOf, Preserves, ChromaSyncState.Value;
    UpToDateTracks(state.Value(), collection.entries.Keys);
    var extracted := ExtractChunkRecords(docs);
    if extracted.None? {
      return Some(DuplicateInPage), budget;
    }
    error, left := ReconcileRecords(collection, extracted.value, read, state, budget);
  }

  /** Entries under other ids are as they were. */
  ghost predicate Preserves(before: map<IndexId, Entry>, entries: map<IndexId, Entry>, records: seq<ChunkRecord>) {
    forall id | id in before && id !in IdsOf(records) :: id in entries && entries[id] == before[id]
  }

  lemma UpToDateTracks(p: Progress, keys: set<IndexId>)
    requires UpToDate(p, keys)
    ensures Tracks(p, keys)
  {}

  lemma NothingHeld(entries: map<IndexId, Entry>, records: seq<ChunkRecord>, read: int -> Option<string>,
                    source: set<IndexId>)
    ensures Holds(entries, records[..0], read) && source + IdsOf(records[..0]) == source
    ensures Preserves(entries, entries, records[..0])
  {}

  lemma AllRecords(records: seq<ChunkRecord>)
    ensures records[..|records|] == records
  {}

  lemma OneMore(records: seq<ChunkRecord>, i: nat)
    requires i < |records|
    ensures IdsOf(records[..i + 1]) == IdsOf(records[..i]) + {Chunk(records[i].id)}
  {
    assert forall r :: r in records[..i + 1] <==> r in records[..i] || r == records[i];
  }

  /** An id that has been noted before was in an earlier page, or twice in this one. */
  lemma Repeated(records: seq<ChunkRecord>, i: nat, source: set<IndexId>)
    requires i < |records| && Chunk(records[i].id) in source + IdsOf(records[..i])
    ensures !DistinctChunks(records) || !(IdsOf(records) !! source)
  {
    assert Chunk(records[i].id) in IdsOf(records);
    if Chunk(records[i].id) !in source {
      var r :| r in records[..i] && Chunk(r.id) == Chunk(records[i].id);
      var j :| 0 <= j < i && records[j] == r;
      assert records[j].id == records[i].id;
    }
  }

  lemma HoldsOneMore(before: map<IndexId, Entry>, entries: map<IndexId, Entry>, records: seq<ChunkRecord>, i: nat,
                     read: int -> Option<string>)
    requires i < |records| && Holds(entries, records[..i], read) && Preserves(before, entries, records[..i])
    requires Chunk(records[i].id) !in IdsOf(records[..i])
    ensures read(records[i].id).Some? ==>
              var entries' := entries[Chunk(records[i].id) := Entry(read(records[i].id).value, records[i])];
              Holds(entries', records[..i + 1], read) && Preserves(before, entries', records[..i + 1])
  {
    OneMore(records, i);
    assert forall r :: r in records[..i + 1] <==> r in records[..i] || r == records[i];
    forall r | r in records[..i] ensures Chunk(r.id) != Chunk(records[i].id) {
      assert Chunk(r.id) in IdsOf(records[..i]);
    }
  }

  // ---- All pages ----------------------------------------------------------------------------------------------

  function StoredIds(rows: map<int, Row>): set<IndexId> { set id | id in StoredChunks(rows) :: Chunk(id) }

  /** After the first `d` documents: the index has all of their chunks, and nothing is known of the others. */
  ghost predicate Covers(rows: map<int, Row>, d: nat, p: Progress, entries: map<IndexId, Entry>,
                         read: int -> Option<string>)
    requires d <= |Documents(rows)|
  {
    && UpToDate(p, entries.Keys)
    && p.source == IdsOf(RecordsOf(Documents(rows)[..d]))
    && Holds(entries, RecordsOf(Documents(rows)[..d]), read)
  }

  lemma CoversNothing(rows: map<int, Row>, p: Progress, entries: map<IndexId, Entry>, read: int -> Option<string>)
    requires p == Progress(entries.Keys, {}, [], [], [])
    ensures Covers(rows, 0, p, entries, read)
  {
    hide Documents;
    assert RecordsOf(Documents(rows)[..0]) == [];
    assert entries.Keys + {} - {} == entries.Keys;
    assert p.source - Set([]) - Set([]) == {};
  }

  lemma CoversFacts(rows: map<int, Row>, d: nat, p: Progress, entries: map<IndexId, Entry>,
                    read: int -> Option<string>)
    requires d <= |Documents(rows)| && Covers(rows, d, p, entries, read)
    ensures UpToDate(p, entries.Keys) && Tracks(p, entries.Keys)
  {}

  /** The page after the first `d` documents repeats no chunk, neither in itself nor of the pages before. */
  lemma PageIsFresh(rows: map<int, Row>, d: nat, end: nat)
    requires d <= end <= |Documents(rows)|
    ensures var all := Documents(rows);
            && RecordsOf(all[..end]) == RecordsOf(all[..d]) + RecordsOf(all[d..end])
            && DistinctChunks(RecordsOf(all[d..end]))
            && IdsOf(RecordsOf(all[d..end])) !! IdsOf(RecordsOf(all[..d]))
  {
    hide RecordsOf, Documents, FromTable;
    var all := Documents(rows);
    TableRecords(rows, end);
    assert all[..end] == all[..d] + all[d..end];
    RecordsConcat(all[..d], all[d..end]);
    SplitDistinct(RecordsOf(all[..d]), RecordsOf(all[d..end]));
  }

  lemma SplitDistinct(a: seq<ChunkRecord>, b: seq<ChunkRecord>)
    requires DistinctChunks(a + b)
    ensures DistinctChunks(b) && IdsOf(b) !! IdsOf(a)
  {
    forall i, j | 0 <= i < j < |b| ensures b[i].id != b[j].id {
      assert (a + b)[|a| + i].id != (a + b)[|a| + j].id;
    }
    forall r, q | r in a && q in b ensures r.id != q.id {
      var i :| 0 <= i < |a| && a[i] == r;
      var j :| 0 <= j < |b| && b[j] == q;
      assert (a + b)[i].id != (a + b)[|a| + j].id;
    }
  }

  lemma CoversGrows(rows: map<int, Row>, d: nat, end: nat, p: Progress, entries: map<IndexId, Entry>,
                    p': Progress, entries': map<IndexId, Entry>, read: int -> Option<string>)
    requires d <= end <= |Documents(rows)| && Covers(rows, d, p, entries, read)
    requires UpToDate(p', entries'.Keys) && p'.source == p.source + IdsOf(RecordsOf(Documents(rows)[d..end]))
    requires Holds(entries', RecordsOf(Documents(rows)[d..end]), read)
    requires Preserves(entries, entries', RecordsOf(Documents(rows)[d..end]))
    ensures Covers(rows, end, p', entries', read)
  {
    hide RecordsOf, Documents, UpToDate, DistinctChunks;
    var all := Documents(rows);
    PageIsFresh(rows, d, end);
    var before, page := RecordsOf(all[..d]), RecordsOf(all[d..end]);
    assert forall r :: r in before + page <==> r in before || r in page;
    assert IdsOf(before + page) == IdsOf(before) + IdsOf(page);
    forall r: ChunkRecord | r in before + page
      ensures Chunk(r.id) in entries' && read(r.id).Some? && entries'[Chunk(r.id)] == Entry(read(r.id).value, r)
    {
      if r in before {
        assert Chunk(r.id) in IdsOf(before);
      }
    }
  }

  /** How many pages `n` documents fill; there is always one. */
  function PageCalls(n: nat, batchSize: nat): nat
    requires batchSize > 0
  {
    if n <= batchSize then 1 else 1 + PageCalls(n - batchSize, batchSize)
  }

  /** The calls that it takes to process the documents from `offset` on. */
  function CallsFrom(rows: map<int, Row>, offset: nat, batchSize: nat): nat
    requires batchSize > 0 && offset <= |Documents(rows)|
  {
    PageCalls(|Documents(rows)| - offset, batchSize) + CHUNK_CALLS * |RecordsOf(Documents(rows)[offset..])|
  }

  lemma CallsOfPage(rows: map<int, Row>, offset: nat, batchSize: nat, limit: nat, remaining: nat)
    requires batchSize > 0 && offset + limit + remaining == |Documents(rows)|
    requires limit <= batchSize && (remaining > 0 ==> limit == batchSize)
    ensures CallsFrom(rows, offset, batchSize)
         == 1 + CHUNK_CALLS * |RecordsOf(Documents(rows)[offset..offset + limit])|
            + if remaining > 0 then CallsFrom(rows, offset + limit, batchSize) else 0
  {
    hide Documents, RecordsOf;
    var all := Documents(rows);
    RecordsConcat(all[offset..offset + limit], all[offset + limit..]);
    assert all[offset..] == all[offset..offset + limit] + all[offset + limit..];
    assert remaining == 0 ==> all[offset..] == all[offset..offset + limit];
  }

  lemma PageWithin(rows: map<int, Row>, d: nat, end: nat)
    requires d <= end <= |Documents(rows)|
    ensures IdsOf(RecordsOf(Documents(rows)[d..end])) <= StoredIds(rows)
  {
    hide Documents, RecordsOf, StoredIds;
    var all := Documents(rows);
    RecordsPrefix(all, end);
    assert all[..end] == all[..d] + all[d..end];
    RecordsConcat(all[..d], all[d..end]);
    forall r | r in RecordsOf(all[d..end]) ensures r in RecordsOf(all) {
      assert r in RecordsOf(all[..end]);
    }
    ListedIds(rows);
  }

  /** The calls that it takes to reconcile the index with the table: one a page, three a chunk, and the deletions. */
  function Calls(rows: map<int, Row>, batchSize: nat, initial: set<IndexId>): nat
    requires batchSize > 0
  {
    PageCalls(|DocumentIds(rows)|, batchSize) + CHUNK_CALLS * |StoredIds(rows)| + Batches(|initial - StoredIds(rows)|)
  }

  /** Each stored chunk is one record of the listing. */
  lemma CallsOfAll(rows: map<int, Row>, batchSize: nat, initial: set<IndexId>)
    requires batchSize > 0
    ensures Calls(rows, batchSize, initial) == CallsFrom(rows, 0, batchSize) + Batches(|initial - StoredIds(rows)|)
  {
    hide Documents, RecordsOf, StoredIds, PageCalls, FromTable;
    var records := RecordsOf(Documents(rows));
    assert Documents(rows)[0..] == Documents(rows);
    ListingIsComplete(rows);
    ListedIds(rows);
    DistinctCount(records);
  }

  lemma {:induction false} DistinctCount(records: seq<ChunkRecord>)
    requires DistinctChunks(records)
    ensures |IdsOf(records)| == |records|
  {
    if records != [] {
      var last := |records| - 1;
      DistinctCount(records[..last]);
      OneMore(records, last);
      assert records[..last + 1] == records;
      assert Chunk(records[last].id) !in IdsOf(records[..last]);
    }
  }

  /** The page by page reconciliation of the index with the table, and then the deletion of what is stale; `budget` is
      how many calls succeed. It succeeds if and only if each stored chunk can be read and the calls suffice. `visited`
      are the documents of the pages that have been processed. */
  method ReconcilePages(collection: Collection, state: ChromaSyncState, rows: map<int, Row>, batchSize: int,
                        read: int -> Option<string>, budget: nat)
    returns (error: Option<SyncError>, report: SyncReport, ghost visited: seq<Document>)
    requires state.Value() == Progress(collection.entries.Keys, {}, [], [], [])
    modifies collection, state
    ensures Tracks(state.Value(), collection.entries.Keys)
    ensures batchSize <= 0 <==> error == Some(InvalidBatchSize)
    ensures error.None? <==> batchSize > 0 && AllRead(rows, read)
                             && budget >= Calls(rows, batchSize, old(collection.entries).Keys)
    ensures error.Some? && batchSize > 0 ==>
              match error.value
              case Unavailable => budget < Calls(rows, batchSize, old(collection.entries).Keys)
              case ChunkNotFound(id) => Chunk(id) in StoredIds(rows) && read(id).None?
              case _ => false
    ensures visited <= Documents(rows)
    ensures state.Value().deleted != [] || error.None? ==>
              && visited == Documents(rows)
              && state.Value().source == StoredIds(rows) == Set(state.Value().created) + Set(state.Value().updated)
    ensures error.None? ==>
              && report == Report(state.Value())
              && collection.entries.Keys == StoredIds(rows)
              && Holds(collection.entries, RecordsOf(Documents(rows)), read)
              && Set(state.Value().deleted) == old(collection.entries).Keys - StoredIds(rows)
    ensures error.None? ==> Reports(report, StoredIds(rows), old(collection.entries).Keys)
  {
    hide Tracks, UpToDate, Holds, IdsOf, RecordsOf, Documents, Covers, StoredIds, Set, Report;
    hide CallsFrom, Calls, Batches, AllRead;
    report := Report(state.Value());
    visited := [];
    CoversNothing(rows, state.Value(), collection.entries, read);
    CoversFacts(rows, 0, state.Value(), collection.entries, read);
    if batchSize <= 0 {
      return Some(InvalidBatchSize), report, visited;
    }
    CallsOfAll(rows, batchSize, collection.entries.Keys);
    var left, offset;
    error, left, offset := ReadPages(collection, state, rows, batchSize, read, budget);
    visited := Documents(rows)[..offset];
    if error.Some? {
      NotAllRead(rows, read);
      return;
    }
    assert Documents(rows)[..offset] == Documents(rows);
    AllAreRead(rows, state.Value(), collection.entries, read);
    var ok;
    ok, report := DeleteStale(collection, state, rows, read, left);
    if ok {
      ReportIs(state.Value(), collection.entries.Keys, StoredIds(rows));
    }
    error := if ok then None else Some(Unavailable);
  }

  /** The report of a run that succeeded: what was not in the index was created, what was there and is stored was
      updated, and the rest was deleted, each once; so many there were at first, and so many there are now. */
  ghost predicate Reports(report: SyncReport, stored: set<IndexId>, initial: set<IndexId>) {
    && (forall id :: id in report.created <==> id in stored && id !in initial)
    && (forall id :: id in report.updated <==> id in stored && id in initial)
    && (forall id :: id in report.deleted <==> id in initial && id !in stored)
    && NoRepeats(report.created) && NoRepeats(report.updated) && NoRepeats(report.deleted)
    && report.synchronizedCount == |stored| == report.chromaSize && report.initialRecords == |initial|
  }

  lemma ReportIs(p: Progress, keys: set<IndexId>, stored: set<IndexId>)
    requires Tracks(p, keys) && p.source == stored == Set(p.created) + Set(p.updated) == keys
    requires Set(p.deleted) == p.initial - stored
    ensures Reports(Report(p), stored, p.initial)
  {
    hide NoRepeats;
    ReportedSizeIsActual(p, keys);
    assert forall id :: (id in p.created <==> id in Set(p.created)) && (id in p.updated <==> id in Set(p.updated))
                        && (id in p.deleted <==> id in Set(p.deleted));
  }

  /** Every stored chunk can be read. */
  ghost predicate AllRead(rows: map<int, Row>, read: int -> Option<string>) {
    forall id | Chunk(id) in StoredIds(rows) :: read(id).Some?
  }

  lemma NotAllRead(rows: map<int, Row>, read: int -> Option<string>)
    ensures forall id | Chunk(id) in StoredIds(rows) && read(id).None? :: !AllRead(rows, read)
  {}

  lemma AllAreRead(rows: map<int, Row>, p: Progress, entries: map<IndexId, Entry>, read: int -> Option<string>)
    requires Covers(rows, |Documents(rows)|, p, entries, read)
    ensures AllRead(rows, read)
  {
    hide RecordsOf, Documents, StoredIds, Tracks;
    CoversAll(rows, p, entries, read);
    forall id | Chunk(id) in StoredIds(rows) ensures read(id).Some? {
      var r :| r in RecordsOf(Documents(rows)) && r.id == id;
    }
  }

  /** The deletion once all pages have been processed. */
  method DeleteStale(collection: Collection, state: ChromaSyncState, ghost rows: map<int, Row>,
                     ghost read: int -> Option<string>, budget: nat)
    returns (ok: bool, report: SyncReport)
    requires Covers(rows, |Documents(rows)|, state.Value(), collection.entries, read)
    modifies collection, state`deleted
    ensures Tracks(state.Value(), collection.entries.Keys)
    ensures ok <==> budget >= Batches(|state.Value().initial - StoredIds(rows)|)
    ensures state.Value().source == StoredIds(rows) == Set(state.Value().created) + Set(state.Value().updated)
    ensures ok ==>
              && report == Report(state.Value())
              && collection.entries.Keys == StoredIds(rows)
              && Holds(collection.entries, RecordsOf(Documents(rows)), read)
              && Set(state.Value().deleted) == state.Value().initial - StoredIds(rows)
  {
    hide Tracks, UpToDate, Holds, IdsOf, RecordsOf, Documents, Covers, StoredIds, Report;
    CoversAll(rows, state.Value(), collection.entries, read);
    NothingDeleted(rows, |Documents(rows)|, state.Value(), collection.entries, read);
    ghost var before := collection.entries;
    ok, report := FinalizeReconciliation(collection, state, budget);
    AfterDeletion(rows, state.Value(), before, collection.entries, read);
  }

  lemma NothingDeleted(rows: map<int, Row>, d: nat, p: Progress, entries: map<IndexId, Entry>,
                       read: int -> Option<string>)
    requires d <= |Documents(rows)| && Covers(rows, d, p, entries, read)
    ensures p.deleted == [] && p.initial - p.source - Set(p.deleted) == p.initial - p.source
  {}

  /** The loop over the pages; `offset` is how many documents have been processed. */
  method ReadPages(collection: Collection, state: ChromaSyncState, rows: map<int, Row>, batchSize: nat,
                   read: int -> Option<string>, budget: nat)
    returns (error: Option<SyncError>, left: nat, offset: nat)
    requires batchSize > 0 && Covers(rows, 0, state.Value(), collection.entries, read)
    modifies collection, state`sourceChunkIds, state`created, state`updated
    ensures Tracks(state.Value(), collection.entries.Keys)
    ensures IsPagesCause(error, rows, 0, batchSize, read, budget)
    ensures offset <= |Documents(rows)|
    ensures error.None? ==>
              && offset == |Documents(rows)| && Covers(rows, offset, state.Value(), collection.entries, read)
              && left + CallsFrom(rows, 0, batchSize) == budget
  {
    hide Tracks, Documents, Covers, StoredIds, CallsFrom, ChromaSyncState.Value;
    left, offset := budget, 0;
    while true
      invariant 0 <= offset <= |Documents(rows)|
      invariant Covers(rows, offset, state.Value(), collection.entries, read)
      invariant left + CallsFrom(rows, 0, batchSize) == budget + CallsFrom(rows, offset, batchSize)
      decreases |Documents(rows)| - offset
    {
      var remaining, limit;
      error, left, limit, remaining := ReconcileNext(collection, state, rows, offset, batchSize, read, left);
      if error.Some? {
        return;
      }
      if remaining == 0 {
        offset := offset + limit;
        break;
      }
      offset := offset + limit;
    }
    CoversFacts(rows, offset, state.Value(), collection.entries, read);
  }

  /** A failure has its cause: the calls ran out before the pages from `offset` on were processed, or a stored chunk
      could not be read. */
  ghost predicate IsPagesCause(error: Option<SyncError>, rows: map<int, Row>, offset: nat, batchSize: nat,
                               read: int -> Option<string>, budget: nat)
    requires batchSize > 0 && offset <= |Documents(rows)|
  {
    match error
    case None => true
    case Some(Unavailable) => budget < CallsFrom(rows, offset, batchSize)
    case Some(ChunkNotFound(id)) => Chunk(id) in StoredIds(rows) && read(id).None?
    case _ => false
  }

  /** The page at `offset`: fetched, validated and reconciled. */
  method ReconcileNext(collection: Collection, state: ChromaSyncState, rows: map<int, Row>, offset: nat,
                       batchSize: nat, read: int -> Option<string>, budget: nat)
    returns (error: Option<SyncError>, left: nat, limit: nat, remaining: nat)
    requires batchSize > 0 && offset <= |Documents(rows)|
    requires Covers(rows, offset, state.Value(), collection.entries, read)
    modifies collection, state`sourceChunkIds, state`created, state`updated
    ensures Tracks(state.Value(), collection.entries.Keys)
    ensures IsPagesCause(error, rows, offset, batchSize, read, budget)
    ensures error.None? ==>
              && offset + limit + remaining == |Documents(rows)| && (remaining > 0 ==> limit > 0)
              && Covers(rows, offset + limit, state.Value(), collection.entries, read)
              && left + CallsFrom(rows, offset, batchSize)
                 == budget + if remaining > 0 then CallsFrom(rows, offset + limit, batchSize) else 0
  {
    hide *;
    CoversFacts(rows, offset, state.Value(), collection.entries, read);
    left, limit, remaining := budget, 0, 0;
    PagesAreValid(rows, offset, batchSize);
    ghost var next := PageOf(rows, offset, batchSize);
    CallsOfPage(rows, offset, batchSize, next.limit, next.remaining);
    if left == 0 {
      CallsRanOut(rows, offset, batchSize, read, budget);
      return Some(Unavailable), left, limit, remaining;
    }
    left := left - 1;
    var fetched := GetDocuments(rows, offset, batchSize);
    var page := fetched.value;
    var validated := ValidatePage(ResponseOf(page), offset);
    match validated {
      case Err(invalid) =>
        return Some(InvalidPage(invalid)), left, limit, remaining;
      case Ok(range) =>
        limit, remaining := range.0, range.1;
    }
    ghost var p, entries := state.Value(), collection.entries;
    PageIsFresh(rows, offset, offset + page.limit);
    SourceCovered(rows, offset, p, entries, read);
    ghost var given := left;
    error, left := ReconcileChroma(collection, page.docs, read, state, left);
    if error.None? {
      CoversGrows(rows, offset, offset + limit, p, entries, state.Value(), collection.entries, read);
    }
    PageCause(error, rows, offset, batchSize, limit, remaining, read, given);
  }

  lemma CallsRanOut(rows: map<int, Row>, offset: nat, batchSize: nat, read: int -> Option<string>, budget: nat)
    requires batchSize > 0 && offset <= |Documents(rows)| && budget < CallsFrom(rows, offset, batchSize)
    ensures IsPagesCause(Some(Unavailable), rows, offset, batchSize, read, budget)
  {}

  lemma PageCause(error: Option<SyncError>, rows: map<int, Row>, offset: nat, batchSize: nat, limit: nat,
                  remaining: nat, read: int -> Option<string>, budget: nat)
    requires batchSize > 0 && offset + limit + remaining == |Documents(rows)|
    requires limit <= batchSize && (remaining > 0 ==> limit == batchSize)
    requires IsCause(error, RecordsOf(Documents(rows)[offset..offset + limit]), read, budget)
    ensures IsPagesCause(error, rows, offset, batchSize, read, budget + 1)
  {
    hide Documents, RecordsOf, StoredIds, CallsFrom, IdsOf;
    CallsOfPage(rows, offset, batchSize, limit, remaining);
    PageWithin(rows, offset, offset + limit);
  }

  lemma SourceCovered(rows: map<int, Row>, d: nat, p: Progress, entries: map<IndexId, Entry>,
                      read: int -> Option<string>)
    requires d <= |Documents(rows)| && Covers(rows, d, p, entries, read)
    ensures p.source == IdsOf(RecordsOf(Documents(rows)[..d]))
  {}

  lemma CoversAll(rows: map<int, Row>, p: Progress, entries: map<IndexId, Entry>, read: int -> Option<string>)
    requires Covers(rows, |Documents(rows)|, p, entries, read)
    ensures p.source == StoredIds(rows) == Set(p.created) + Set(p.updated)
    ensures Tracks(p, entries.Keys) && Holds(entries, RecordsOf(Documents(rows)), read)
    ensures IdsOf(RecordsOf(Documents(rows))) == StoredIds(rows)
  {
    hide RecordsOf, Documents, StoredIds, IdsOf, Holds, Tracks;
    var all := Documents(rows);
    assert all[..|all|] == all;
    ListedIds(rows);
  }

  lemma ListedIds(rows: map<int, Row>)
    ensures IdsOf(RecordsOf(Documents(rows))) == StoredIds(rows)
  {
    hide RecordsOf, Documents, StoredChunks, FromTable, DistinctChunks;
    ListingIsComplete(rows);
    var records := RecordsOf(Documents(rows));
    forall id ensures id in IdsOf(records) <==> id in StoredIds(rows) {
      if id in StoredIds(rows) {
        var r :| r in records && r.id == id.id;
        assert Chunk(r.id) == id;
      }
    }
  }

  /** What is deleted is none of the chunks. */
  lemma AfterDeletion(rows: map<int, Row>, p: Progress, before: map<IndexId, Entry>, entries: map<IndexId, Entry>,
                      read: int -> Option<string>)
    requires Tracks(p, entries.Keys) && p.source == StoredIds(rows) == Set(p.created) + Set(p.updated)
    requires IdsOf(RecordsOf(Documents(rows))) == StoredIds(rows)
    requires Holds(before, RecordsOf(Documents(rows)), read)
    requires forall id | id in entries :: id in before && entries[id] == before[id]
    ensures Set(p.deleted) == p.initial - p.source ==>
              entries.Keys == StoredIds(rows) && Holds(entries, RecordsOf(Documents(rows)), read)
  {
    hide RecordsOf, Documents, StoredIds, NoRepeats;
    if Set(p.deleted) == p.initial - p.source {
      assert entries.Keys == p.source;
      forall r | r in RecordsOf(Documents(rows)) ensures Chunk(r.id) in entries {
        assert Chunk(r.id) in IdsOf(RecordsOf(Documents(rows)));
      }
    }
  }
}
