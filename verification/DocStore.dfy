/** The operations that change both replicas of the document store: put, attach and delete. */
module DocStore {
  import opened Options
  import opened Strings
  import opened FileUri
  import opened Records
  import opened Sync
  import opened Replicas
  import opened Sets
  import Sequences

  const PARENT_FOR_ORPHANS := 0

  /** A file that is written in the directory of a record, as a whole or not at all. */
  datatype FileWrite =
    | WritePayload(stem: string, data: Bytes) | WriteParent(parentId: int) | WriteOffset(offset: int)
    | WriteSize(size: int) | WriteMetadata | WriteDocType(docType: string)

  const EMPTY: Directory := Directory(None, None, None, None, None)

  function Written(directory: Directory, write: FileWrite): Directory {
    match write
    case WritePayload(stem, data) => directory.(payload := Some(Payload(stem, data)))
    case WriteParent(parentId) => directory.(parentId := Some(parentId))
    case WriteOffset(offset) => directory.(offset := Some(offset))
    case WriteSize(size) => directory.(size := Some(size))
    case WriteMetadata => directory
    case WriteDocType(docType) => directory.(docType := Some(docType))
  }

  function AllWritten(directory: Directory, writes: seq<FileWrite>): Directory
    decreases |writes|
  {
    if writes == [] then directory
    else Written(AllWritten(directory, writes[..|writes| - 1]), writes[|writes| - 1])
  }

  function DocumentWrites(id: int, uri: string, data: Bytes): seq<FileWrite> {
    [WritePayload(Canonize(uri), data), WriteParent(id)]
  }

  function CommitWrites(id: int, size: nat, docType: string): seq<FileWrite> {
    [WriteOffset(0), WriteSize(size), WriteParent(id), WriteMetadata, WriteDocType(docType)]
  }

  function ChunkWrites(uri: string): seq<FileWrite> {
    [WritePayload(Canonize(uri), []), WriteParent(0), WriteOffset(0), WriteSize(0), WriteMetadata]
  }

  function UpdateWrites(parentId: int, offset: int, size: int): seq<FileWrite> {
    [WriteOffset(offset), WriteSize(size), WriteParent(parentId)]
  }

  predicate OccursAt(data: Bytes, part: Bytes, k: int) { 0 <= k <= |data| - |part| && data[k..k + |part|] == part }

  /** The first occurrence of `part` in `data` from `i` on, or -1. */
  function Find(data: Bytes, part: Bytes, i: nat): (r: int)
    ensures r == -1 ==> forall k | i <= k :: !OccursAt(data, part, k)
    ensures r != -1 ==> i <= r && OccursAt(data, part, r) && forall k | i <= k < r :: !OccursAt(data, part, k)
    decreases |data| - i
  {
    if i + |part| > |data| then -1 else if OccursAt(data, part, i) then i else Find(data, part, i + 1)
  }

  /** Wherever `part` lies in the data, it is found, there or before; and it is where it is found. */
  lemma FindsFirst(data: Bytes, part: Bytes, a: Bytes, b: Bytes)
    ensures data == a + part + b ==> 0 <= Find(data, part, 0) <= |a|
    ensures var r := Find(data, part, 0); r != -1 ==> 0 <= r <= |data| - |part| && data[r..r + |part|] == part
  {
    if data == a + part + b {
      assert data[|a|..|a| + |part|] == part;
      assert OccursAt(data, part, |a|);
    }
  }

  datatype Failure =
    | CannotPrepare | NoParentInDb | NoParentInStorage | NotADocumentInDb | NotADocumentInStorage
    | NotInParent | DoesNotFit | CannotReadParent | FileError

  function PutDone(st: Replicas.Store, id: int, uri: string, data: Bytes, docType: string): Replicas.Store {
    Replicas.Store(st.rows[id := DocumentRow(id, uri, |data|, docType)],
                   st.directories[id := DocumentDirectory(id, uri, data, docType)],
                   st.contents[id := data])
  }

  /** The row that is left when a document could not be stored: nobody is its parent. */
  function OrphanRow(id: int, uri: string, size: nat, docType: string): Row {
    DocumentRow(id, uri, size, docType).(parentId := PARENT_FOR_ORPHANS)
  }

  /** What is on disk when the file system gave up after `budget` steps, the first of which makes the directory. */
  function PutTorn(directories: map<int, Directory>, id: int, uri: string, data: Bytes, docType: string, budget: nat):
    map<int, Directory>
  {
    var writes := DocumentWrites(id, uri, data) + CommitWrites(id, |data|, docType);
    if id in directories || budget == 0 then directories
    else directories[id := AllWritten(EMPTY, if budget - 1 < |writes| then writes[..budget - 1] else writes)]
  }

  const PUT_STEPS: nat := 8

  /** Why an attachment is turned down before anything is created, or where the chunk is. */
  function Locate(st: Replicas.Store, docId: int, chunk: Option<Bytes>): Result<(int, int), Failure> {
    if docId !in st.rows then Err(NoParentInDb)
    else if docId !in st.directories then Err(NoParentInStorage)
    else
      var row, record := st.rows[docId], FromDirectory(docId, st.directories[docId]);
      if row.parentId != row.id then Err(NotADocumentInDb)
      else if record.parentId != docId then Err(NotADocumentInStorage)
      else if chunk.None? then Err(CannotPrepare)
      else
        var payload := ReadPayload(st.directories, docId);
        if payload.Err? then Err(CannotReadParent)
        else
          var offset, size := Find(payload.value, chunk.value, 0), |chunk.value|;
          if offset < 0 then Err(NotInParent)
          else if row.size >= 0 && offset + size > row.size then Err(DoesNotFit)
          else Ok((offset, size))
  }

  /** The chunk as it is looked for, decoded first when the type of the parent says base64. */
  function PrepareChunk(codec: Codec, st: Replicas.Store, docId: int, raw: Bytes): Option<Bytes> {
    var prepared := codec.prepare(raw);
    if prepared.Some? && docId in st.rows && IsBase64(st.rows[docId].docType) then codec.decodeBase64(prepared.value)
    else prepared
  }

  function AttachDone(st: Replicas.Store, docId: int, id: int, chunk: Bytes, offset: int): Replicas.Store
    requires docId in st.rows && docId in st.directories
  {
    var stem := FromDirectory(docId, st.directories[docId]).fileUri;
    Replicas.Store(st.rows[id := Row(id, Decanonize(st.rows[docId].filePath), offset, |chunk|, docId, "")],
                   st.directories[id := ChunkDirectory(Canonize(stem), docId, offset, |chunk|)],
                   st.contents[id := chunk])
  }

  const CHUNK_STEPS: nat := 6
  const ATTACH_STEPS: nat := 9

  /** The file system gave up between making the directory of the chunk and writing its last placeholder: the rollback
      does not know of the directory, which stays. */
  predicate Leaks(directories: map<int, Directory>, id: int, budget: nat) {
    id !in directories && 0 < budget < CHUNK_STEPS
  }

  function LeakedDirectory(directories: map<int, Directory>, docId: int, budget: nat): Directory
    requires docId in directories && 0 < budget < CHUNK_STEPS
  {
    AllWritten(EMPTY, ChunkWrites(FromDirectory(docId, directories[docId]).fileUri)[..budget - 1])
  }

  /** The records that go when `ids` are deleted: these and what is attached to them. */
  function Targets(rows: map<int, Row>, ids: seq<int>): set<int> {
    set id | id in rows && (id in ids || rows[id].parentId in ids)
  }

  function Without(st: Replicas.Store, ids: set<int>): Replicas.Store {
    Replicas.Store(st.rows - ids, st.directories - ids, st.contents - ids)
  }

  class Store {
    const codec: Codec
    const session: Database
    var directories: map<int, Directory>
    ghost var contents: map<int, Bytes>

    constructor (codec: Codec)
      ensures this.codec == codec && fresh(session) && State() == Replicas.Store(map[], map[], map[])
      ensures Consistent(codec, State())
    {
      this.codec := codec;
      session := new Database();
      directories, contents := map[], map[];
    }

    ghost function State(): Replicas.Store
      reads this, session
    {
      Replicas.Store(session.rows, directories, contents)
    }

    /** Writes the files one after another until the file system fails; `budget` is how many more it can write. */
    method WriteFiles(id: int, writes: seq<FileWrite>, budget: nat) returns (ok: bool, left: nat)
      requires id in directories
      modifies this`directories
      ensures ok <==> |writes| <= budget
      ensures left == if ok then budget - |writes| else 0
      ensures directories
           == old(directories)[id := AllWritten(old(directories)[id], if ok then writes else writes[..budget])]
    {
      left := budget;
      for i := 0 to |writes|
        invariant left + i == budget
        invariant directories.Keys == old(directories).Keys
        invariant directories == old(directories)[id := AllWritten(old(directories)[id], writes[..i])]
      {
        if left == 0 {
          return false, 0;
        }
        left := left - 1;
        assert writes[..i + 1][..i] == writes[..i];
        directories := directories[id := Written(directories[id], writes[i])];
      }
      assert writes[..|writes|] == writes;
      ok := true;
    }

    method Put(uri: string, raw: Bytes, docType: string, id: int, budget: nat, updates: bool)
      returns (result: Result<int, Failure>)
      requires Keyed(session.rows) && id > 0 && id !in session.rows
      modifies this, session
      ensures Keyed(session.rows)
      ensures codec.prepare(raw).None? ==> result == Err(CannotPrepare) && State() == old(State())
      ensures codec.prepare(raw).Some? ==>
                (result == Ok(id) <==> id !in old(directories) && budget >= PUT_STEPS && updates)
      ensures result.Ok? ==> State() == PutDone(old(State()), id, uri, codec.prepare(raw).value, docType)
      ensures result.Ok? ==>
                && id in session.rows && id in directories && id in contents
                && contents[id] == codec.prepare(raw).value
                && session.rows[id] == Row(id, Decanonize(uri), 0, |contents[id]|, id, docType)
                && directories[id] == Directory(Some(Payload(Canonize(uri), contents[id])), Some(id), Some(0),
                                                Some(|contents[id]|), Some(docType))
                && session.rows - {id} == old(session.rows) && directories - {id} == old(directories)
      ensures codec.prepare(raw).Some? && result.Err? ==>
                var data := codec.prepare(raw).value;
                && session.rows == old(session.rows)[id := OrphanRow(id, uri, |data|, docType)]
                && directories == PutTorn(old(directories), id, uri, data, docType, budget)
                && contents == old(contents)
    {
      hide Decanonize, Canonize, AllWritten, PutTorn;
      var prepared := codec.prepare(raw);
      if prepared.None? {
        return Err(CannotPrepare);
      }
      var data := prepared.value;
      var record := session.CreateFileRecord(id, uri, 0, |data|, PARENT_FOR_ORPHANS, docType);
      var ok := StoreDocument(id, uri, data, docType, budget);
      if !ok || !updates {
        return Err(FileError);
      }
      DecanonizeIdempotent(uri);
      PutWhole(directories, old(directories), id, uri, data, docType, budget);
      var _ := session.UpdateFileRecordExt(id, record.(parentId := id));
      contents := contents[id := data];
      result := Ok(id);
    }

    /** The directory, its payload and parent, and then what committing a document adds. */
    method StoreDocument(id: int, uri: string, data: Bytes, docType: string, budget: nat) returns (ok: bool)
      modifies this`directories
      ensures ok <==> id !in old(directories) && budget >= PUT_STEPS
      ensures directories == PutTorn(old(directories), id, uri, data, docType, budget)
    {
      hide Canonize, AllWritten;
      if id in directories || budget == 0 {
        return false;
      }
      directories := directories[id := EMPTY];
      var left;
      ghost var writes, commits := DocumentWrites(id, uri, data), CommitWrites(id, |data|, docType);
      ok, left := WriteFiles(id, DocumentWrites(id, uri, data), budget - 1);
      if ok {
        AllWrittenConcat(EMPTY, writes, commits, if left < |commits| then left else |commits|);
        ok, left := WriteFiles(id, CommitWrites(id, |data|, docType), left);
        assert commits[..|commits|] == commits && (writes + commits)[..|writes + commits|] == writes + commits;
      } else {
        assert (writes + commits)[..budget - 1] == writes[..budget - 1];
      }
    }

    method Attach(docId: int, raw: Bytes, id: int, budget: nat) returns (result: Result<int, Failure>)
      requires Keyed(session.rows) && id > 0 && id !in session.rows
      modifies this, session
      ensures Keyed(session.rows)
      ensures var chunk := PrepareChunk(codec, old(State()), docId, raw);
              var located := Locate(old(State()), docId, chunk);
              && (located.Err? ==> result == Err(located.error) && State() == old(State()))
              && (located.Ok? ==> (result == Ok(id) <==> id !in old(directories) && budget >= ATTACH_STEPS))
              && (result.Ok? ==> State() == AttachDone(old(State()), docId, id, chunk.value, located.value.0))
              && (result.Ok? ==>
                    && docId in old(session.rows) && codec.prepare(raw).Some? && id in contents
                    && Some(contents[id]) == if IsBase64(old(session.rows)[docId].docType)
                                             then codec.decodeBase64(codec.prepare(raw).value)
                                             else codec.prepare(raw))
              && (result.Ok? ==>
                    && id in session.rows && id in directories
                    && session.rows[id] == Row(id, Decanonize(old(session.rows)[docId].filePath), located.value.0,
                                               |contents[id]|, docId, "")
                    && directories[id].parentId == Some(docId) && directories[id].offset == Some(located.value.0)
                    && directories[id].size == Some(|contents[id]|) && directories[id].docType == None
                    && session.rows - {id} == old(session.rows) && directories - {id} == old(directories))
              && (located.Ok? && result.Err? ==>
                    && session.rows == old(session.rows) && contents == old(contents)
                    && directories == if Leaks(old(directories), id, budget)
                                      then old(directories)[id := LeakedDirectory(old(directories), docId, budget)]
                                      else old(directories))
    {
      hide Decanonize, Canonize, AllWritten, Find, ReadPayload, SplitAt;
      var chunk := PrepareChunk(codec, Replicas.Store(session.rows, directories, map[]), docId, raw);
      var located := Locate(Replicas.Store(session.rows, directories, map[]), docId, chunk);
      if located.Err? {
        return Err(located.error);
      }
      var (offset, size) := located.value;
      var parentUri := FromDirectory(docId, directories[docId]).fileUri;
      var record := session.CreateFileRecord(id, session.rows[docId].filePath, 0, 0, PARENT_FOR_ORPHANS, "");
      var created, stored := StoreChunk(id, docId, parentUri, offset, size, budget);
      if !stored {
        if created {
          directories := directories - {id};
        }
        var _ := session.DeleteFileRecord(id);
        return Err(FileError);
      }
      DecanonizeIdempotent(session.rows[docId].filePath);
      var _ := session.UpdateFileRecordExt(id, record.(offset := offset, size := size, parentId := docId));
      contents := contents[id := chunk.value];
      result := Ok(id);
    }

    /** The placeholders of a chunk and then its place in the parent; `created` is whether the placeholders were
        complete, which is when the caller learns of the record. */
    method StoreChunk(id: int, docId: int, uri: string, offset: int, size: int, budget: nat)
      returns (created: bool, stored: bool)
      modifies this`directories
      ensures created <==> id !in old(directories) && budget >= CHUNK_STEPS
      ensures stored <==> id !in old(directories) && budget >= ATTACH_STEPS
      ensures stored ==> directories == old(directories)[id := ChunkDirectory(Canonize(uri), docId, offset, size)]
      ensures created ==> directories.Keys == old(directories).Keys + {id} && directories - {id} == old(directories)
      ensures !created ==>
                directories == if Leaks(old(directories), id, budget)
                               then old(directories)[id := AllWritten(EMPTY, ChunkWrites(uri)[..budget - 1])]
                               else old(directories)
    {
      hide Canonize, AllWritten;
      if id in directories || budget == 0 {
        return false, false;
      }
      directories := directories[id := EMPTY];
      var left;
      created, left := WriteFiles(id, ChunkWrites(uri), budget - 1);
      stored := false;
      if created {
        stored, left := WriteFiles(id, UpdateWrites(docId, offset, size), left);
        ChunkIsWritten(uri, docId, offset, size);
      }
    }

    /** Removes the records and what is attached to them; `budget` is how many directories the file system can remove
        before it fails, and `torn` what it then leaves of the next one. A failure leaves the table as it is. */
    method Delete(ids: seq<int>, budget: nat, torn: Directory -> Directory)
      returns (ok: bool, deletedFromDb: nat, deletedFromStorage: nat, missing: seq<int>, ghost gone: set<int>,
               ghost failed: int)
      requires Keyed(session.rows)
      modifies this, session
      ensures Keyed(session.rows)
      ensures ok <==> |Targets(old(session.rows), ids) * old(directories).Keys| <= budget
      ensures ok ==> State() == Without(old(State()), Targets(old(session.rows), ids))
      ensures ok ==> Cascades(old(State()), State(), ids)
      ensures ok ==>
                && deletedFromDb == |old(session.rows).Keys - session.rows.Keys|
                && deletedFromStorage == |old(directories).Keys - directories.Keys|
                && Sequences.NoRepeats(missing) && Sequences.InTurn(ids, missing)
                && forall id :: id in missing <==> id in ids && id !in old(session.rows)
      ensures !ok ==>
                && session.rows == old(session.rows) && contents == old(contents)
                && IsInterrupted(Targets(old(session.rows), ids), old(directories), budget, gone, failed)
                && directories == Interrupted(old(directories), gone, failed, torn)
                && (forall id | id in gone || id == failed :: IsRequested(session.rows, ids, id))
                && deletedFromDb == 0 && deletedFromStorage == 0 && missing == []
    {
      hide IsInterrupted, Interrupted, Cascades, IsRequested, Targets, Without;
      var targets := Targets(session.rows, ids);
      TargetsRequested(session.rows, ids);
      ghost var before := State();
      missing := Missing(ids, targets);
      deletedFromDb := |targets|;
      ok, deletedFromStorage, gone, failed := RemoveDirectories(targets, budget, torn);
      if !ok {
        InterruptedRequested(session.rows, ids, before.directories, budget, gone, failed);
        deletedFromDb, deletedFromStorage, missing := 0, 0, [];
        return;
      }
      TargetsGo(session.rows, before.directories, targets);
      session.rows := session.rows - targets;
      contents := contents - targets;
      WithoutTargets(before, ids);
      assert State() == Without(before, targets) by { WithoutIs(before, targets); }
    }

    /** The requested ids of which there is no record, each once. */
    method Missing(ids: seq<int>, targets: set<int>) returns (missing: seq<int>)
      ensures Sequences.NoRepeats(missing) && Sequences.InTurn(ids, missing)
      ensures forall id :: id in missing <==> id in ids && id !in targets
    {
      missing := [];
      for i := 0 to |ids|
        invariant forall id :: id in missing <==> id in ids[..i] && id !in targets
        invariant Sequences.NoRepeats(missing) && Sequences.InTurn(ids, missing)
      {
        if ids[i] !in ids[..i] {
          Sequences.PlaceIs(ids, i);
        }
        forall k | 0 <= k < |missing| ensures Sequences.Place(ids, missing[k]) < i {
          assert missing[k] in missing;
          Sequences.PlaceBefore(ids, i, missing[k]);
        }
        assert ids[..i + 1] == ids[..i] + [ids[i]];
        if ids[i] !in targets && ids[i] !in missing {
          Sequences.InTurnMore(ids, missing, ids[i]);
          missing := missing + [ids[i]];
        }
      }
      assert ids[..|ids|] == ids;
    }

    method RemoveDirectories(ids: set<int>, budget: nat, torn: Directory -> Directory)
      returns (ok: bool, removed: nat, ghost gone: set<int>, ghost failed: int)
      modifies this`directories
      ensures ok <==> |ids * old(directories).Keys| <= budget
      ensures ok ==> directories == old(directories) - ids && removed == |ids * old(directories).Keys|
      ensures !ok ==>
                && IsInterrupted(ids, old(directories), budget, gone, failed)
                && directories == Interrupted(old(directories), gone, failed, torn)
    {
      removed, gone, failed := 0, {}, 0;
      var left := ids;
      NoneGone(directories);
      while left != {}
        invariant left + gone == ids && left !! gone
        invariant directories == old(directories) - gone
        invariant removed == |gone * old(directories).Keys| <= budget
        decreases |left|
      {
        ghost var some := HasElement(left);
        var id :| id in left;
        OneMoreGone(old(directories), gone, id);
        OneMoreCounted(old(directories).Keys, gone, id);
        if id in directories {
          if removed == budget {
            MoreThan(old(directories).Keys, ids, gone, id);
            directories, failed := directories[id := torn(directories[id])], id;
            return false, removed, gone, failed;
          }
          directories := directories - {id};
          removed := removed + 1;
        }
        MoveOver(left, gone, id);
        left, gone := left - {id}, gone + {id};
      }
      assert gone == ids;
      ok := true;
    }
  }

  /** The file system failed at one of the directories, after it had removed as many as it could. */
  ghost predicate IsInterrupted(ids: set<int>, directories: map<int, Directory>, budget: nat, gone: set<int>,
                                failed: int)
  {
    && gone <= ids && |gone * directories.Keys| == budget
    && failed in ids && failed in directories && failed !in gone
  }

  function Interrupted(directories: map<int, Directory>, gone: set<int>, failed: int, torn: Directory -> Directory):
    map<int, Directory>
    requires failed in directories
  {
    (directories - gone)[failed := torn(directories[failed])]
  }

  lemma MoreThan(keys: set<int>, ids: set<int>, gone: set<int>, id: int)
    requires gone <= ids && id in ids && id !in gone && id in keys
    ensures |ids * keys| > |gone * keys|
  {
    var rest := ids * keys - gone * keys;
    assert ids * keys == gone * keys + rest && id in rest;
  }

  /** The record is requested, or attached to a requested one. */
  predicate IsRequested(rows: map<int, Row>, ids: seq<int>, id: int) {
    id in rows && (id in ids || rows[id].parentId in ids)
  }

  /** Exactly the records that are requested or attached to a requested one are gone, and all else is as it was. */
  ghost predicate Cascades(before: Replicas.Store, after: Replicas.Store, ids: seq<int>) {
    && (forall id :: id in after.rows <==> id in before.rows && !IsRequested(before.rows, ids, id))
    && (forall id :: id in after.directories <==> id in before.directories && !IsRequested(before.rows, ids, id))
    && (forall id :: id in after.contents <==> id in before.contents && !IsRequested(before.rows, ids, id))
    && (forall id | id in after.rows :: after.rows[id] == before.rows[id])
    && (forall id | id in after.directories :: after.directories[id] == before.directories[id])
    && (forall id | id in after.contents :: after.contents[id] == before.contents[id])
  }

  lemma TargetsRequested(rows: map<int, Row>, ids: seq<int>)
    ensures forall id :: id in Targets(rows, ids) <==> IsRequested(rows, ids, id)
    ensures Targets(rows, ids) <= rows.Keys
    ensures forall id | id in ids :: id in Targets(rows, ids) <==> id in rows
  {}

  lemma WithoutTargets(st: Replicas.Store, ids: seq<int>)
    ensures Cascades(st, Without(st, Targets(st.rows, ids)), ids)
  {}

  lemma WithoutIs(st: Replicas.Store, targets: set<int>)
    ensures Without(st, targets)
         == Replicas.Store(st.rows - targets, st.directories - targets, st.contents - targets)
  {}

  lemma InterruptedRequested(rows: map<int, Row>, ids: seq<int>, directories: map<int, Directory>, budget: nat,
                             gone: set<int>, failed: int)
    requires IsInterrupted(Targets(rows, ids), directories, budget, gone, failed)
    ensures failed in directories && forall id | id in gone || id == failed :: IsRequested(rows, ids, id)
  {
    TargetsRequested(rows, ids);
  }

  lemma TargetsGo(rows: map<int, Row>, directories: map<int, Directory>, targets: set<int>)
    requires targets <= rows.Keys
    ensures rows.Keys - (rows - targets).Keys == targets
    ensures directories.Keys - (directories - targets).Keys == targets * directories.Keys
  {}

  lemma NoneGone(directories: map<int, Directory>)
    ensures directories - {} == directories && |{} * directories.Keys| == 0
  {
    assert {} * directories.Keys == {};
  }

  lemma MoveOver(left: set<int>, gone: set<int>, id: int)
    requires id in left && left !! gone
    ensures (left - {id}) + (gone + {id}) == left + gone && left - {id} !! gone + {id} && |left - {id}| < |left|
  {}

  lemma OneMoreGone(directories: map<int, Directory>, gone: set<int>, id: int)
    requires id !in gone
    ensures id in directories - gone <==> id in directories
    ensures directories - (gone + {id}) == if id in directories then directories - gone - {id} else directories - gone
  {
    var less := directories - gone;
    Difference(directories, gone);
    Difference(directories, gone + {id});
    Difference(less, {id});
    assert id !in directories ==> directories - (gone + {id}) == less;
    assert directories - (gone + {id}) == less - {id};
  }

  /** What is left of a map, entry by entry. */
  lemma Difference(directories: map<int, Directory>, gone: set<int>)
    ensures forall k :: k in directories - gone <==> k in directories && k !in gone
    ensures forall k | k in directories - gone :: (directories - gone)[k] == directories[k]
  {}

  lemma OneMoreCounted(keys: set<int>, gone: set<int>, id: int)
    requires id !in gone
    ensures |(gone + {id}) * keys| == |gone * keys| + if id in keys then 1 else 0
  {
    if id in keys {
      assert (gone + {id}) * keys == gone * keys + {id};
    } else {
      assert (gone + {id}) * keys == gone * keys;
    }
  }

  lemma PutWhole(directories: map<int, Directory>, before: map<int, Directory>, id: int, uri: string, data: Bytes,
                 docType: string, budget: nat)
    requires id !in before && budget >= PUT_STEPS
    requires directories == PutTorn(before, id, uri, data, docType, budget)
    ensures directories == before[id := DocumentDirectory(id, uri, data, docType)]
  {
    hide AllWritten, Canonize;
    var writes := DocumentWrites(id, uri, data) + CommitWrites(id, |data|, docType);
    assert writes[..|writes|] == writes;
    DocumentIsWritten(id, uri, data, docType);
  }

  lemma AllWrittenStep(directory: Directory, writes: seq<FileWrite>, k: nat)
    requires k < |writes|
    ensures AllWritten(directory, writes[..k + 1]) == Written(AllWritten(directory, writes[..k]), writes[k])
  {
    assert writes[..k + 1][..k] == writes[..k];
  }

  lemma {:induction false} AllWrittenConcat(directory: Directory, a: seq<FileWrite>, b: seq<FileWrite>, k: nat)
    requires k <= |b|
    ensures AllWritten(AllWritten(directory, a), b[..k]) == AllWritten(directory, (a + b)[..|a| + k])
  {
    hide Written;
    if k == 0 {
      assert (a + b)[..|a|] == a;
    } else {
      AllWrittenConcat(directory, a, b, k - 1);
      AllWrittenStep(AllWritten(directory, a), b, k - 1);
      AllWrittenStep(directory, a + b, |a| + k - 1);
    }
  }

  lemma DocumentIsWritten(id: int, uri: string, data: Bytes, docType: string)
    ensures AllWritten(EMPTY, DocumentWrites(id, uri, data) + CommitWrites(id, |data|, docType))
         == DocumentDirectory(id, uri, data, docType)
  {
    hide AllWritten, Canonize;
    var writes := DocumentWrites(id, uri, data) + CommitWrites(id, |data|, docType);
    assert AllWritten(EMPTY, writes[..0]) == EMPTY by { NoneWritten(writes); }
    AllWrittenStep(EMPTY, writes, 0);
    AllWrittenStep(EMPTY, writes, 1);
    AllWrittenStep(EMPTY, writes, 2);
    AllWrittenStep(EMPTY, writes, 3);
    AllWrittenStep(EMPTY, writes, 4);
    AllWrittenStep(EMPTY, writes, 5);
    AllWrittenStep(EMPTY, writes, 6);
    assert writes[..7] == writes;
  }

  lemma ChunkIsWritten(uri: string, docId: int, offset: int, size: int)
    ensures AllWritten(AllWritten(EMPTY, ChunkWrites(uri)), UpdateWrites(docId, offset, size))
         == ChunkDirectory(Canonize(uri), docId, offset, size)
  {
    hide AllWritten, Canonize;
    var placeholders, updates := ChunkWrites(uri), UpdateWrites(docId, offset, size);
    NoneWritten(placeholders);
    AllWrittenStep(EMPTY, placeholders, 0);
    AllWrittenStep(EMPTY, placeholders, 1);
    AllWrittenStep(EMPTY, placeholders, 2);
    AllWrittenStep(EMPTY, placeholders, 3);
    AllWrittenStep(EMPTY, placeholders, 4);
    assert placeholders[..5] == placeholders;
    var chunk := AllWritten(EMPTY, placeholders);
    assert AllWritten(chunk, updates[..0]) == chunk by { AllWrittenNothing(chunk, updates); }
    AllWrittenStep(chunk, updates, 0);
    AllWrittenStep(chunk, updates, 1);
    AllWrittenStep(chunk, updates, 2);
    assert updates[..3] == updates;
  }

  lemma AllWrittenNothing(directory: Directory, writes: seq<FileWrite>)
    ensures AllWritten(directory, writes[..0]) == directory
  {}

  lemma NoneWritten(writes: seq<FileWrite>)
    ensures AllWritten(EMPTY, writes[..0]) == EMPTY
  {}

  // ---- What the operations keep -------------------------------------------------------------------------------

  /** What a record under another id is, is not touched by a new record. */
  lemma OthersFit(codec: Codec, st: Replicas.Store, st': Replicas.Store, id: int, other: int)
    requires Consistent(codec, st) && id !in st.rows && other in st.rows
    requires id in st'.rows && st'.rows == st.rows[id := st'.rows[id]]
    requires id in st'.directories && st'.directories == st.directories[id := st'.directories[id]]
    requires id in st'.contents && st'.contents == st.contents[id := st'.contents[id]]
    ensures RecordFits(codec, st', other)
  {
    hide Agrees, FromDirectory, Canonize, SplitAt;
    assert RecordFits(codec, st, other);
    assert RecordFits(codec, st, st.rows[other].parentId);
  }

  lemma PutKeepsConsistent(codec: Codec, st: Replicas.Store, id: int, uri: string, data: Bytes, docType: string)
    requires Consistent(codec, st) && id > 0 && id !in st.rows && codec.isText(data)
    ensures Consistent(codec, PutDone(st, id, uri, data, docType))
  {
    var st' := PutDone(st, id, uri, data, docType);
    forall other | other in st'.rows || other in st'.directories || other in st'.contents
      ensures RecordFits(codec, st', other)
    {
      if other == id {
        NewDocumentFits(codec, st, id, uri, data, docType);
      } else {
        assert RecordFits(codec, st, other);
        OthersFit(codec, st, st', id, other);
      }
    }
  }

  lemma NewDocumentFits(codec: Codec, st: Replicas.Store, id: int, uri: string, data: Bytes, docType: string)
    requires id > 0 && codec.isText(data)
    ensures RecordFits(codec, PutDone(st, id, uri, data, docType), id)
  {
    hide Canonize, Decanonize;
    CanonizeIdempotent(uri);
    CanonizeAfterDecanonize(uri);
  }

  /** Why an attachment is turned down, the first reason that applies, and where the chunk is otherwise. */
  lemma LocateReasons(st: Replicas.Store, docId: int, chunk: Option<Bytes>)
    ensures Locate(st, docId, chunk) ==
            match (docId in st.rows, docId in st.directories)
            case (false, _) => Err(NoParentInDb)
            case (true, false) => Err(NoParentInStorage)
            case (true, true) =>
              if st.rows[docId].parentId != st.rows[docId].id then Err(NotADocumentInDb)
              else if Or(st.directories[docId].parentId, 0) != docId then Err(NotADocumentInStorage)
              else if chunk == None then Err(CannotPrepare)
              else
                match ReadPayload(st.directories, docId)
                case Err(_) => Err(CannotReadParent)
                case Ok(payload) =>
                  var at, end := Find(payload, chunk.value, 0), Find(payload, chunk.value, 0) + |chunk.value|;
                  if at == -1 then Err(NotInParent)
                  else if 0 <= st.rows[docId].size < end then Err(DoesNotFit)
                  else Ok((at, |chunk.value|))
  {
    hide Find, ReadPayload;
  }

  /** In consistent replicas an attachment is turned down only for one of these reasons; otherwise the chunk is at its
      first occurrence in the parent. */
  lemma LocateInConsistent(codec: Codec, st: Replicas.Store, docId: int, chunk: Option<Bytes>)
    requires Consistent(codec, st)
    ensures var located := Locate(st, docId, chunk);
            if docId !in st.rows then located == Err(NoParentInDb)
            else if st.rows[docId].parentId != docId then located == Err(NotADocumentInDb)
            else if chunk.None? then located == Err(CannotPrepare)
            else if located.Err? then
              located == Err(NotInParent) && forall k | 0 <= k :: !OccursAt(st.contents[docId], chunk.value, k)
            else
              var (offset, size) := located.value;
              && 0 <= offset && size == |chunk.value| && OccursAt(st.contents[docId], chunk.value, offset)
              && forall k | 0 <= k < offset :: !OccursAt(st.contents[docId], chunk.value, k)
  {
    hide Canonize, SplitAt, FileUrisEqual;
    if docId in st.rows {
      assert RecordFits(codec, st, docId);
    }
  }

  lemma AttachKeepsConsistent(codec: Codec, st: Replicas.Store, docId: int, id: int, raw: Bytes)
    requires Lawful(codec) && Consistent(codec, st) && id > 0 && id !in st.rows
    requires Locate(st, docId, PrepareChunk(codec, st, docId, raw)).Ok?
    ensures var chunk := PrepareChunk(codec, st, docId, raw);
            && docId in st.rows && docId in st.directories && chunk.Some?
            && Consistent(codec, AttachDone(st, docId, id, chunk.value,
                                            Locate(st, docId, chunk).value.0))
  {
    hide Consistent, Locate, PrepareChunk, AttachDone;
    LocateInConsistent(codec, st, docId, PrepareChunk(codec, st, docId, raw));
    ParentFits(codec, st, docId, raw);
    var chunk := PrepareChunk(codec, st, docId, raw).value;
    var offset := Locate(st, docId, PrepareChunk(codec, st, docId, raw)).value.0;
    var st' := AttachDone(st, docId, id, chunk, offset);
    assert Consistent(codec, st') by {
      forall other | other in st'.rows || other in st'.directories || other in st'.contents
        ensures RecordFits(codec, st', other)
      {
        OtherOrNew(codec, st, docId, id, chunk, offset, other);
        if other == id {
          NewChunkFits(codec, st, docId, id, chunk, offset);
        } else {
          OthersFit(codec, st, st', id, other);
        }
      }
      FitsIsConsistent(codec, st');
    }
  }

  lemma FitsIsConsistent(codec: Codec, st: Replicas.Store)
    requires forall id | id in st.rows || id in st.directories || id in st.contents :: RecordFits(codec, st, id)
    ensures Consistent(codec, st)
  {}

  lemma OtherOrNew(codec: Codec, st: Replicas.Store, docId: int, id: int, chunk: Bytes, offset: int, other: int)
    requires docId in st.rows && docId in st.directories && Consistent(codec, st)
    requires var st' := AttachDone(st, docId, id, chunk, offset);
             other in st'.rows || other in st'.directories || other in st'.contents
    ensures other == id || other in st.rows
    ensures var st' := AttachDone(st, docId, id, chunk, offset);
            && id in st'.rows && st'.rows == st.rows[id := st'.rows[id]]
            && id in st'.directories && st'.directories == st.directories[id := st'.directories[id]]
            && id in st'.contents && st'.contents == st.contents[id := st'.contents[id]]
  {
    hide RecordFits;
    if other != id {
      assert RecordFits(codec, st, other);
      Recorded(codec, st, other);
    }
  }

  lemma Recorded(codec: Codec, st: Replicas.Store, id: int)
    requires RecordFits(codec, st, id)
    ensures id in st.rows && id in st.directories && id in st.contents
  {}

  /** A chunk that was prepared for a document is text unless the document is of base64 type. */
  lemma ParentFits(codec: Codec, st: Replicas.Store, docId: int, raw: Bytes)
    requires Lawful(codec) && Consistent(codec, st) && docId in st.rows && st.rows[docId].parentId == docId
    requires PrepareChunk(codec, st, docId, raw).Some?
    ensures RecordFits(codec, st, docId)
    ensures !IsBase64(st.rows[docId].docType) ==> codec.isText(PrepareChunk(codec, st, docId, raw).value)
    ensures docId in st.directories
  {
    hide Canonize, SplitAt, FileUrisEqual;
    assert RecordFits(codec, st, docId);
  }

  lemma NewChunkFits(codec: Codec, st: Replicas.Store, docId: int, id: int, chunk: Bytes, offset: int)
    requires RecordFits(codec, st, docId) && st.rows[docId].parentId == docId && id > 0 && id !in st.rows
    requires OccursAt(st.contents[docId], chunk, offset)
    requires !IsBase64(st.rows[docId].docType) ==> codec.isText(chunk)
    ensures RecordFits(codec, AttachDone(st, docId, id, chunk, offset), id)
  {
    hide Canonize, Decanonize, SplitAt;
    var stem := st.directories[docId].payload.value.stem;
    CanonizeIdempotent(stem);
    CanonizeAfterDecanonize(st.rows[docId].filePath);
  }

  /** A cascade leaves no chunk without its parent. */
  lemma DeleteKeepsConsistent(codec: Codec, st: Replicas.Store, ids: seq<int>)
    requires Consistent(codec, st)
    ensures Consistent(codec, Without(st, Targets(st.rows, ids)))
  {
    hide Agrees, FromDirectory, Canonize, SplitAt;
    var targets := Targets(st.rows, ids);
    var st' := Without(st, targets);
    forall id | id in st'.rows || id in st'.directories || id in st'.contents ensures RecordFits(codec, st', id) {
      assert RecordFits(codec, st, id);
      assert id !in targets;
      var parentId := st.rows[id].parentId;
      assert parentId !in targets by {
        if parentId != id {
          assert RecordFits(codec, st, parentId);
          assert parentId !in ids;
        }
      }
    }
  }

  // ---- Histories ----------------------------------------------------------------------------------------------

  datatype Operation =
    | PutOperation(uri: string, raw: Bytes, docType: string, id: int)
    | AttachOperation(docId: int, raw: Bytes, id: int)
    | DeleteOperation(ids: seq<int>)

  /** The operation succeeds; a new id is one that the table does not have. */
  predicate Succeeds(codec: Codec, st: Replicas.Store, operation: Operation) {
    match operation
    case PutOperation(_, raw, _, id) => id > 0 && id !in st.rows && codec.prepare(raw).Some?
    case AttachOperation(docId, raw, id) =>
      id > 0 && id !in st.rows && Locate(st, docId, PrepareChunk(codec, st, docId, raw)).Ok?
    case DeleteOperation(_) => true
  }

  function After(codec: Codec, st: Replicas.Store, operation: Operation): Replicas.Store
    requires Succeeds(codec, st, operation)
  {
    match operation
    case PutOperation(uri, raw, docType, id) => PutDone(st, id, uri, codec.prepare(raw).value, docType)
    case AttachOperation(docId, raw, id) =>
      var chunk := PrepareChunk(codec, st, docId, raw);
      AttachDone(st, docId, id, chunk.value, Locate(st, docId, chunk).value.0)
    case DeleteOperation(ids) => Without(st, Targets(st.rows, ids))
  }

  predicate IsHistory(codec: Codec, st: Replicas.Store, operations: seq<Operation>)
    decreases |operations|
  {
    operations == []
    || (Succeeds(codec, st, operations[0]) && IsHistory(codec, After(codec, st, operations[0]), operations[1..]))
  }

  function Outcome(codec: Codec, st: Replicas.Store, operations: seq<Operation>): Replicas.Store
    requires IsHistory(codec, st, operations)
    decreases |operations|
  {
    if operations == [] then st else Outcome(codec, After(codec, st, operations[0]), operations[1..])
  }

  lemma OperationKeepsConsistent(codec: Codec, st: Replicas.Store, operation: Operation)
    requires Lawful(codec) && Consistent(codec, st) && Succeeds(codec, st, operation)
    ensures Consistent(codec, After(codec, st, operation))
  {
    hide Consistent, Locate, PrepareChunk, AttachDone, PutDone, Without, Targets;
    match operation
    case PutOperation(uri, raw, docType, id) =>
      PutKeepsConsistent(codec, st, id, uri, codec.prepare(raw).value, docType);
    case AttachOperation(docId, raw, id) => AttachKeepsConsistent(codec, st, docId, id, raw);
    case DeleteOperation(ids) => DeleteKeepsConsistent(codec, st, ids);
  }

  /** After any sequence of successful operations the replicas are consistent, hence a synchronization changes nothing
      and every id reads back as what was stored under it. */
  lemma {:induction false} HistoryIsConsistent(codec: Codec, st: Replicas.Store, operations: seq<Operation>)
    requires Lawful(codec) && Consistent(codec, st) && IsHistory(codec, st, operations)
    ensures var end := Outcome(codec, st, operations);
            && Consistent(codec, end)
            && Synced(end.rows, GetAllRecords(end.directories)) == end.rows
            && Counted(end.rows, GetAllRecords(end.directories)) == SyncResult(0, 0, 0, |end.directories|)
            && forall id | id in end.rows && codec.isText(end.contents[id]) ::
                 ReadId(codec, end.rows, end.directories, id)
                 == Ok(Context(end.rows[id].parentId, end.rows[id].parentId == id, end.contents[id]))
    decreases |operations|
  {
    hide Consistent, Succeeds, After, ReadId, Synced, Counted;
    if operations == [] {
      SynchronizationChangesNothing(codec, st);
      assert forall id | id in st.rows :: id in st.contents by { ContentsOfRows(codec, st); }
      forall id | id in st.rows && codec.isText(st.contents[id])
        ensures ReadId(codec, st.rows, st.directories, id)
             == Ok(Context(st.rows[id].parentId, st.rows[id].parentId == id, st.contents[id]))
      {
        ReadsBack(codec, st, id);
      }
    } else {
      OperationKeepsConsistent(codec, st, operations[0]);
      HistoryIsConsistent(codec, After(codec, st, operations[0]), operations[1..]);
    }
  }

  lemma ContentsOfRows(codec: Codec, st: Replicas.Store)
    requires Consistent(codec, st)
    ensures forall id | id in st.rows :: id in st.contents
  {
    hide RecordFits;
    forall id | id in st.rows ensures id in st.contents {
      Recorded(codec, st, id);
    }
  }

  // ---- What a synchronization does about failures -------------------------------------------------------------

  /** Rows outside storage make no difference to what a synchronization leaves. */
  lemma SyncedLocally(rows: map<int, Row>, rows': map<int, Row>, storage: map<int, StorageRecord>)
    requires forall id | id in storage :: id in rows && id in rows' && rows'[id] == rows[id]
    ensures Synced(rows', storage) == Synced(rows, storage)
  {
    hide SyncedRow, NewRow;
    assert Synced(rows', storage).Keys == Synced(rows, storage).Keys;
    forall id | id in storage ensures Synced(rows', storage)[id] == Synced(rows, storage)[id] {
      assert rows'[id] == rows[id];
    }
  }

  lemma StoredHasRow(codec: Codec, st: Replicas.Store)
    requires Consistent(codec, st)
    ensures forall id | id in GetAllRecords(st.directories) :: id in st.rows
    ensures forall id :: id in st.rows <==> id in st.directories
    ensures forall id | id in st.rows :: id > 0
  {
    hide Canonize, DocumentFits, ChunkFits, Agrees, FromDirectory;
    forall id | id in st.directories || id in st.rows ensures id in st.rows && id in st.directories && id > 0 {
      assert RecordFits(codec, st, id);
    }
  }

  /** A put that failed before its directory was made leaves an orphan row, which a synchronization deletes. */
  lemma OrphanRowIsDeleted(codec: Codec, st: Replicas.Store, id: int, uri: string, size: nat, docType: string)
    requires Consistent(codec, st) && id !in st.rows
    ensures Synced(st.rows[id := OrphanRow(id, uri, size, docType)], GetAllRecords(st.directories)) == st.rows
  {
    hide Consistent, Synced, OrphanRow, GetAllRecords, Counted;
    SynchronizationChangesNothing(codec, st);
    StoredHasRow(codec, st);
    SyncedLocally(st.rows, st.rows[id := OrphanRow(id, uri, size, docType)], GetAllRecords(st.directories));
  }

  lemma SyncedAlike(rows: map<int, Row>, id: int, row: Row, row': Row, storage: map<int, StorageRecord>)
    requires id in storage ==> SyncedRow(row', storage[id]) == SyncedRow(row, storage[id])
    ensures Synced(rows[id := row'], storage) == Synced(rows[id := row], storage)
  {
    hide SyncedRow, NewRow;
  }

  /** A put that failed only in its last update is completed by a synchronization. */
  lemma LastUpdateIsMadeUp(codec: Codec, st: Replicas.Store, id: int, uri: string, data: Bytes, docType: string)
    requires Consistent(codec, st) && id > 0 && id !in st.rows && codec.isText(data)
    ensures var done := PutDone(st, id, uri, data, docType);
            Synced(st.rows[id := OrphanRow(id, uri, |data|, docType)], GetAllRecords(done.directories)) == done.rows
  {
    hide Consistent, Synced, OrphanRow, SyncedRow, Counted, FromDirectory, DocumentRow, DocumentDirectory;
    var done := PutDone(st, id, uri, data, docType);
    PutKeepsConsistent(codec, st, id, uri, data, docType);
    SynchronizationChangesNothing(codec, done);
    OrphanRowSynced(id, uri, data, docType);
    SyncedAlike(st.rows, id, DocumentRow(id, uri, |data|, docType), OrphanRow(id, uri, |data|, docType),
                GetAllRecords(done.directories));
  }

  lemma OrphanRowSynced(id: int, uri: string, data: Bytes, docType: string)
    requires id > 0
    ensures var record := FromDirectory(id, DocumentDirectory(id, uri, data, docType));
            SyncedRow(OrphanRow(id, uri, |data|, docType), record)
            == SyncedRow(DocumentRow(id, uri, |data|, docType), record)
  {
    hide Canonize, Decanonize;
    CanonizeIdempotent(uri);
    CanonizeAfterDecanonize(uri);
    DecanonizeIdempotent(uri);
  }

  /** What the directory of a document holds when the file system gave up after `budget` steps. */
  function LeftBehind(id: int, uri: string, data: Bytes, docType: string, budget: nat): Directory {
    Directory(if budget >= 2 then Some(Payload(Canonize(uri), data)) else None, if budget >= 3 then Some(id) else None,
              if budget >= 4 then Some(0) else None, if budget >= 5 then Some(|data|) else None,
              if budget >= PUT_STEPS then Some(docType) else None)
  }

  /** The row that a synchronization makes of it: without a payload it has no path, without a parent it is an orphan,
      without a size it has none, and its type is the last to come. */
  function TornRow(id: int, uri: string, size: nat, docType: string, budget: nat): Row {
    Row(id, if budget >= 2 then Decanonize(uri) else "", if budget >= 4 then 0 else -1,
        if budget >= 5 then size else -1, if budget >= 3 then id else 0, if budget >= PUT_STEPS then docType else "")
  }

  lemma TornDirectory(directories: map<int, Directory>, id: int, uri: string, data: Bytes, docType: string, budget: nat)
    requires id !in directories && budget > 0
    ensures PutTorn(directories, id, uri, data, docType, budget)
         == directories[id := LeftBehind(id, uri, data, docType, budget)]
  {
    hide AllWritten, Canonize;
    var writes := DocumentWrites(id, uri, data) + CommitWrites(id, |data|, docType);
    NoneWritten(writes);
    AllWrittenStep(EMPTY, writes, 0);
    AllWrittenStep(EMPTY, writes, 1);
    AllWrittenStep(EMPTY, writes, 2);
    AllWrittenStep(EMPTY, writes, 3);
    AllWrittenStep(EMPTY, writes, 4);
    AllWrittenStep(EMPTY, writes, 5);
    AllWrittenStep(EMPTY, writes, 6);
    assert writes[..7] == writes;
  }

  lemma NothingCanonized(uri: string)
    ensures Canonize(uri) == "" ==> uri == ""
    ensures Canonize("") == "" && Decanonize("") == ""
  {
    CanonizeIsExpansion(uri);
    CanonizeIsExpansion("");
    if uri != "" {
      ExpandHead(uri, 0);
    }
    EmptyReturns();
  }

  lemma EmptyReturns()
    ensures Decanonize("") == ""
  {
    hide Contains;
    forall j | 0 <= j < COUNT ensures !Contains("", Word(j)) {
      NothingContained(Word(j));
    }
    PlainUriReturns("");
    CanonizeIsExpansion("");
  }

  lemma NothingContained(word: string)
    requires word != ""
    ensures !Contains("", word)
  {}

  lemma TornRowSynced(id: int, uri: string, data: Bytes, docType: string, budget: nat)
    requires budget > 0
    ensures SyncedRow(OrphanRow(id, uri, |data|, docType),
                      FromDirectory(id, LeftBehind(id, uri, data, docType, budget)))
         == TornRow(id, uri, |data|, docType, budget)
  {
    hide Canonize, Decanonize;
    CanonizeIdempotent(uri);
    CanonizeAfterDecanonize(uri);
    DecanonizeIdempotent(uri);
    NothingCanonized(uri);
  }

  lemma SyncedPut(rows: map<int, Row>, storage: map<int, StorageRecord>, id: int, row: Row, record: StorageRecord)
    requires id !in rows && id !in storage
    ensures Synced(rows[id := row], storage[id := record]) == Synced(rows, storage)[id := SyncedRow(row, record)]
  {
    hide SyncedRow, NewRow;
  }

  /** A put that failed after its directory was made: what a synchronization makes of it, whether it reads as the
      document, and that the replicas are consistent again if and only if its size had been written. */
  lemma TornPutIsSynced(codec: Codec, st: Replicas.Store, id: int, uri: string, data: Bytes, docType: string,
                        budget: nat)
    requires Consistent(codec, st) && id > 0 && id !in st.rows && codec.isText(data) && budget > 0
    ensures var directories := PutTorn(st.directories, id, uri, data, docType, budget);
            var rows := Synced(st.rows[id := OrphanRow(id, uri, |data|, docType)], GetAllRecords(directories));
            && rows == st.rows[id := TornRow(id, uri, |data|, docType, budget)]
            && (if budget >= 3 then ReadId(codec, rows, directories, id) == Ok(Context(id, true, data))
                else ReadId(codec, rows, directories, id).Err?)
            && (Consistent(codec, Replicas.Store(rows, directories, st.contents[id := data])) <==> budget >= 5)
  {
    hide Consistent, Synced, FromDirectory, LeftBehind, TornRow, OrphanRow, SyncedRow, ReadId, PutTorn, Counted;
    SynchronizationChangesNothing(codec, st);
    StoredHasRow(codec, st);
    TornDirectory(st.directories, id, uri, data, docType, budget);
    var directories := PutTorn(st.directories, id, uri, data, docType, budget);
    var left := LeftBehind(id, uri, data, docType, budget);
    var storage := GetAllRecords(st.directories);
    assert GetAllRecords(directories) == storage[id := FromDirectory(id, left)];
    SyncedPut(st.rows, storage, id, OrphanRow(id, uri, |data|, docType), FromDirectory(id, left));
    TornRowSynced(id, uri, data, docType, budget);
    var rows := st.rows[id := TornRow(id, uri, |data|, docType, budget)];
    TornReads(codec, rows, directories, id, uri, data, docType, budget);
    TornConsistentIff(codec, st, id, uri, data, docType, budget);
  }

  lemma TornReads(codec: Codec, rows: map<int, Row>, directories: map<int, Directory>, id: int, uri: string,
                  data: Bytes, docType: string, budget: nat)
    requires id in rows && rows[id] == TornRow(id, uri, |data|, docType, budget) && 0 !in directories && id > 0
    requires id in directories && directories[id] == LeftBehind(id, uri, data, docType, budget) && codec.isText(data)
    ensures if budget >= 3 then ReadId(codec, rows, directories, id) == Ok(Context(id, true, data))
            else ReadId(codec, rows, directories, id).Err?
  {
    hide Canonize, Decanonize;
    CanonizeIdempotent(uri);
  }

  lemma TornConsistentIff(codec: Codec, st: Replicas.Store, id: int, uri: string, data: Bytes, docType: string,
                          budget: nat)
    requires Consistent(codec, st) && id > 0 && id !in st.rows && codec.isText(data) && budget > 0
    ensures var st' := Replicas.Store(st.rows[id := TornRow(id, uri, |data|, docType, budget)],
                                      st.directories[id := LeftBehind(id, uri, data, docType, budget)],
                                      st.contents[id := data]);
            Consistent(codec, st') <==> budget >= 5
  {
    hide RecordFits, TornRow, LeftBehind;
    var st' := Replicas.Store(st.rows[id := TornRow(id, uri, |data|, docType, budget)],
                              st.directories[id := LeftBehind(id, uri, data, docType, budget)],
                              st.contents[id := data]);
    TornFitsIff(codec, st', id, uri, data, docType, budget);
    assert id in st'.rows;
    forall other | other != id && (other in st'.rows || other in st'.directories || other in st'.contents)
      ensures RecordFits(codec, st', other)
    {
      assert RecordFits(codec, st, other);
      Recorded(codec, st, other);
      OthersFit(codec, st, st', id, other);
    }
  }

  lemma TornFitsIff(codec: Codec, st: Replicas.Store, id: int, uri: string, data: Bytes, docType: string, budget: nat)
    requires id in st.rows && st.rows[id] == TornRow(id, uri, |data|, docType, budget) && id > 0 && codec.isText(data)
    requires id in st.directories && st.directories[id] == LeftBehind(id, uri, data, docType, budget)
    requires id in st.contents && st.contents[id] == data
    ensures RecordFits(codec, st, id) <==> budget >= 5
  {
    hide Canonize, Decanonize, SplitAt;
    CanonizeIdempotent(uri);
    CanonizeAfterDecanonize(uri);
  }

  /** What a leaked directory holds: the empty payload file and the placeholders that were written. */
  function LeftOfChunk(directories: map<int, Directory>, docId: int, budget: nat): Directory
    requires docId in directories
  {
    var stem := Canonize(FromDirectory(docId, directories[docId]).fileUri);
    Directory(if budget >= 2 then Some(Payload(stem, [])) else None, if budget >= 3 then Some(0) else None,
              if budget >= 4 then Some(0) else None, if budget >= 5 then Some(0) else None, None)
  }

  lemma LeakedIs(directories: map<int, Directory>, docId: int, budget: nat)
    requires docId in directories && 0 < budget < CHUNK_STEPS
    ensures LeakedDirectory(directories, docId, budget) == LeftOfChunk(directories, docId, budget)
  {
    hide AllWritten, Canonize;
    var writes := ChunkWrites(FromDirectory(docId, directories[docId]).fileUri);
    NoneWritten(writes);
    AllWrittenStep(EMPTY, writes, 0);
    AllWrittenStep(EMPTY, writes, 1);
    AllWrittenStep(EMPTY, writes, 2);
    AllWrittenStep(EMPTY, writes, 3);
  }

  /** A directory that leaked from a failed attach becomes a row without a parent, under which nothing can be read. */
  lemma LeakBecomesOrphan(codec: Codec, st: Replicas.Store, docId: int, id: int, budget: nat)
    requires Consistent(codec, st) && docId in st.directories && id > 0 && Leaks(st.directories, id, budget)
    ensures var directories := st.directories[id := LeakedDirectory(st.directories, docId, budget)];
            var rows := Synced(st.rows, GetAllRecords(directories));
            && rows.Keys == st.rows.Keys + {id} && rows[id].parentId == 0
            && (forall other | other in st.rows :: rows[other] == st.rows[other])
            && directories[id] == LeftOfChunk(st.directories, docId, budget)
            && ReadId(codec, rows, directories, id).Err?
            && Counted(st.rows, GetAllRecords(directories)).created == 1
  {
    hide Consistent, Synced, FromDirectory, LeakedDirectory, LeftOfChunk, NewRow, ReadId, Counted;
    var directories := st.directories[id := LeakedDirectory(st.directories, docId, budget)];
    var storage, storage' := GetAllRecords(st.directories), GetAllRecords(directories);
    SynchronizationChangesNothing(codec, st);
    StoredHasRow(codec, st);
    LeakedParent(st.directories, docId, id, budget);
    LeakedIs(st.directories, docId, budget);
    SyncedGrows(st.rows, storage, id, FromDirectory(id, directories[id]));
    assert storage' == storage[id := FromDirectory(id, directories[id])];
    var rows := Synced(st.rows, storage');
    assert rows == st.rows[id := NewRow(id, storage'[id])];
    LeakedIsUnread(codec, rows, directories, id);
    LeakIsCreated(st.rows, storage', id);
  }

  lemma LeakIsCreated(rows: map<int, Row>, storage: map<int, StorageRecord>, id: int)
    requires id in storage && id !in rows && forall other | other in storage :: other == id || other in rows
    ensures Counted(rows, storage).created == 1
  {
    hide Unequal;
    forall other ensures other in storage.Keys - rows.Keys <==> other == id {
      assert other in storage ==> other == id || other in rows;
    }
    assert storage.Keys - rows.Keys == {id};
  }

  lemma SyncedGrows(rows: map<int, Row>, storage: map<int, StorageRecord>, id: int, record: StorageRecord)
    requires id !in rows && id !in storage
    ensures Synced(rows, storage[id := record]) == Synced(rows, storage)[id := NewRow(id, record)]
  {
    hide SyncedRow, NewRow;
  }

  lemma LeakedParent(directories: map<int, Directory>, docId: int, id: int, budget: nat)
    requires docId in directories && Leaks(directories, id, budget)
    ensures var record := FromDirectory(id, LeakedDirectory(directories, docId, budget));
            record.parentId == 0 && NewRow(id, record).parentId == 0
  {
    hide Canonize, Decanonize;
    var writes := ChunkWrites(FromDirectory(docId, directories[docId]).fileUri);
    NoParentWritten(writes, budget - 1);
  }

  lemma {:induction false} NoParentWritten(writes: seq<FileWrite>, k: nat)
    requires k <= |writes| && forall w | w in writes && w.WriteParent? :: w.parentId == 0
    ensures Or(AllWritten(EMPTY, writes[..k]).parentId, 0) == 0
  {
    if k > 0 {
      NoParentWritten(writes, k - 1);
      AllWrittenStep(EMPTY, writes, k - 1);
    }
  }

  lemma LeakedIsUnread(codec: Codec, rows: map<int, Row>, directories: map<int, Directory>, id: int)
    requires id in rows && id in directories && rows[id].parentId == 0 && id > 0
    requires 0 !in directories || FromDirectory(0, directories[0]).parentId != 0
    ensures ReadId(codec, rows, directories, id).Err?
  {
    hide Canonize;
  }
}
