/** When the two replicas of the document store are consistent, and what reading by id then returns. */
module Replicas {
  import opened Options
  import opened Strings
  import opened FileUri
  import opened Records
  import opened Sync

  /** Text in its encoded form: `prepare` strips and checks it, `decodeBase64` undoes base64, `isText` holds for what
      decodes as text. */
  datatype Codec = Codec(prepare: Bytes -> Option<Bytes>, decodeBase64: Bytes -> Option<Bytes>, isText: Bytes -> bool)

  ghost predicate Lawful(codec: Codec) {
    forall raw :: codec.prepare(raw).Some? ==> codec.isText(codec.prepare(raw).value)
  }

  predicate IsBase64(docType: string) { "base64" in SplitAt("", docType, ',') }

  /** The contents of both replicas, with `contents` telling what was put or attached under each id. */
  datatype Store = Store(rows: map<int, Row>, directories: map<int, Directory>, contents: map<int, Bytes>)

  function DocumentRow(id: int, uri: string, size: nat, docType: string): Row {
    Row(id, Decanonize(uri), 0, size, id, docType)
  }

  function DocumentDirectory(id: int, uri: string, data: Bytes, docType: string): Directory {
    Directory(Some(Payload(Canonize(uri), data)), Some(id), Some(0), Some(|data|), Some(docType))
  }

  /** The directory of a chunk has an empty payload file and no type. */
  function ChunkDirectory(stem: string, parentId: int, offset: int, size: int): Directory {
    Directory(Some(Payload(stem, [])), Some(parentId), Some(offset), Some(size), None)
  }

  ghost predicate IsDocument(st: Store, id: int) {
    id in st.rows && id in st.directories && id in st.contents
    && st.rows[id].parentId == id
    && st.directories[id].payload.Some? && st.directories[id].payload.value.data == st.contents[id]
  }

  ghost predicate DocumentFits(codec: Codec, st: Store, id: int) {
    && IsDocument(st, id)
    && st.rows[id].offset == 0 && st.rows[id].size == |st.contents[id]|
    && codec.isText(st.contents[id])
  }

  /** A chunk has a live parent and is the slice of it that its offset and size say. */
  ghost predicate ChunkFits(codec: Codec, st: Store, id: int) {
    id in st.rows && id in st.contents
    && var row := st.rows[id];
       && IsDocument(st, row.parentId)
       && 0 <= row.offset && 0 <= row.size && row.offset + row.size <= |st.contents[row.parentId]|
       && st.contents[id] == st.contents[row.parentId][row.offset..row.offset + row.size]
       && (!IsBase64(st.rows[row.parentId].docType) ==> codec.isText(st.contents[id]))
  }

  ghost predicate RecordFits(codec: Codec, st: Store, id: int) {
    && id > 0 && id in st.rows && st.rows[id].id == id && id in st.directories && id in st.contents
    && st.directories[id].payload.Some?
    && Canonize(st.directories[id].payload.value.stem) == st.directories[id].payload.value.stem
    && Agrees(st.rows[id], FromDirectory(id, st.directories[id]))
    && (if st.rows[id].parentId == id then DocumentFits(codec, st, id) else ChunkFits(codec, st, id))
  }

  /** Both replicas have the same ids and agree on every one of them. */
  ghost predicate Consistent(codec: Codec, st: Store) {
    && (forall id | id in st.rows || id in st.directories || id in st.contents :: RecordFits(codec, st, id))
  }

  lemma ConsistentInLine(codec: Codec, st: Store)
    requires Consistent(codec, st)
    ensures InLine(st.rows, GetAllRecords(st.directories))
  {
    hide Agrees, DocumentFits, ChunkFits, FromDirectory, Canonize;
    assert forall id :: id in st.rows <==> id in GetAllRecords(st.directories);
    forall id | id in GetAllRecords(st.directories) ensures Agrees(st.rows[id], GetAllRecords(st.directories)[id]) {
      assert RecordFits(codec, st, id);
    }
  }

  /** On consistent replicas a synchronization changes nothing and counts nothing. */
  lemma SynchronizationChangesNothing(codec: Codec, st: Store)
    requires Consistent(codec, st)
    ensures Synced(st.rows, GetAllRecords(st.directories)) == st.rows
    ensures Counted(st.rows, GetAllRecords(st.directories)) == SyncResult(0, 0, 0, |st.directories|)
  {
    hide Consistent, InLine, Synced, Counted;
    ConsistentInLine(codec, st);
    InLineStays(st.rows, GetAllRecords(st.directories));
    assert GetAllRecords(st.directories).Keys == st.directories.Keys;
    assert |GetAllRecords(st.directories)| == |GetAllRecords(st.directories).Keys|;
    assert |st.directories| == |st.directories.Keys|;
  }

  // ---- Reading by id ------------------------------------------------------------------------------------------

  datatype ReadError =
    | DoesNotExist | InconsistentParent | InconsistentChunk
    | ParentMissing | NotAFullDocument | CannotRead
    | InvalidBounds | ExceedsParent | NotText

  datatype Resolved = Resolved(recordId: int, parentId: int, offset: int, size: int)

  function DocumentId(record: Resolved): int {
    if record.parentId == record.recordId then record.recordId else record.parentId
  }

  function Resolve(rows: map<int, Row>, storage: map<int, StorageRecord>, id: int): Result<Resolved, ReadError> {
    if id !in rows && id !in storage then Err(DoesNotExist)
    else if id in rows && id in storage then
      var row, record := rows[id], storage[id];
      if row.parentId != record.parentId then Err(InconsistentParent)
      else if row.parentId != id && (row.offset, row.size) != (record.offset, record.size) then Err(InconsistentChunk)
      else Ok(Resolved(id, row.parentId, row.offset, row.size))
    else if id in rows then Ok(Resolved(id, rows[id].parentId, rows[id].offset, rows[id].size))
    else Ok(Resolved(id, storage[id].parentId, storage[id].offset, storage[id].size))
  }

  /** The payload file is looked for under the canonical form of the name that was read from the directory. */
  function ReadPayload(directories: map<int, Directory>, id: int): Result<Bytes, ReadError> {
    if id !in directories then Err(ParentMissing)
    else
      var record := FromDirectory(id, directories[id]);
      if record.parentId != id then Err(NotAFullDocument)
      else if directories[id].payload.None? || Canonize(record.fileUri) != directories[id].payload.value.stem then
        Err(CannotRead)
      else Ok(directories[id].payload.value.data)
  }

  datatype Context = Context(parentId: int, isDocument: bool, text: Bytes)

  function ExtractContext(codec: Codec, record: Resolved, payload: Result<Bytes, ReadError>):
    Result<Context, ReadError>
  {
    if payload.Err? then Err(payload.error)
    else
      var data := payload.value;
      if record.parentId == record.recordId then
        if codec.isText(data) then Ok(Context(record.parentId, true, data)) else Err(NotText)
      else if record.offset < 0 || record.size < 0 then Err(InvalidBounds)
      else if record.offset + record.size > |data| then Err(ExceedsParent)
      else
        var slice := data[record.offset..record.offset + record.size];
        if codec.isText(slice) then Ok(Context(record.parentId, false, slice)) else Err(NotText)
  }

  function ReadId(codec: Codec, rows: map<int, Row>, directories: map<int, Directory>, id: int):
    Result<Context, ReadError>
  {
    var resolved := Resolve(rows, GetAllRecords(directories), id);
    if resolved.Err? then Err(resolved.error)
    else ExtractContext(codec, resolved.value, ReadPayload(directories, DocumentId(resolved.value)))
  }

  /** Reading many ids: the records are resolved, then the payload of each document is read once, then the contexts are
      cut out of the payloads. */
  method ReadIds(codec: Codec, rows: map<int, Row>, directories: map<int, Directory>, recordIds: seq<int>)
    returns (results: map<int, Result<Context, ReadError>>)
    ensures results == map id | id in recordIds :: ReadId(codec, rows, directories, id)
  {
    hide ExtractContext, ReadPayload, Resolve;
    var storage := GetAllRecords(directories);
    var resolved: map<int, Resolved>, errors: map<int, ReadError> := map[], map[];
    for i := 0 to |recordIds|
      invariant forall id :: id in resolved || id in errors <==> id in recordIds[..i]
      invariant resolved.Keys !! errors.Keys
      invariant forall id | id in resolved :: Resolve(rows, storage, id) == Ok(resolved[id])
      invariant forall id | id in errors :: Resolve(rows, storage, id) == Err(errors[id])
    {
      var id := recordIds[i];
      assert recordIds[..i + 1] == recordIds[..i] + [id];
      match Resolve(rows, storage, id)
      case Ok(record) => resolved := resolved[id := record];
      case Err(error) => errors := errors[id := error];
    }
    assert recordIds[..|recordIds|] == recordIds;
    var documentIds := set id | id in resolved :: DocumentId(resolved[id]);
    var payloads := map id | id in documentIds :: ReadPayload(directories, id);
    results := map id | id in recordIds ::
      if id in resolved then ExtractContext(codec, resolved[id], payloads[DocumentId(resolved[id])])
      else Err(errors[id]);
  }

  /** On consistent replicas, reading an id returns exactly what was put or attached under it, provided that it is
      text; an id under which nothing is stored is reported as such. */
  lemma ReadsBack(codec: Codec, st: Store, id: int)
    requires Consistent(codec, st)
    ensures ReadId(codec, st.rows, st.directories, id)
         == if id !in st.rows then Err(DoesNotExist)
            else if !codec.isText(st.contents[id]) then Err(NotText)
            else Ok(Context(st.rows[id].parentId, st.rows[id].parentId == id, st.contents[id]))
  {
    hide Canonize, FileUrisEqual, SplitAt;
    assert id in st.directories ==> RecordFits(codec, st, id);
    if id in st.rows {
      assert RecordFits(codec, st, id);
      assert RecordFits(codec, st, st.rows[id].parentId);
      assert id in GetAllRecords(st.directories);
    }
  }

  /** Only a chunk of a document of base64 type can fail to be text. */
  lemma OnlyBase64IsNotText(codec: Codec, st: Store, id: int)
    requires Consistent(codec, st) && id in st.rows && !codec.isText(st.contents[id])
    ensures st.rows[id].parentId in st.rows && st.rows[id].parentId != id
            && IsBase64(st.rows[st.rows[id].parentId].docType)
  {
    hide Canonize, FileUrisEqual, SplitAt;
    assert RecordFits(codec, st, id);
  }

  /** A type is a list of words with commas between them, and base64 is one of them. */
  lemma IsBase64Iff(words: seq<string>)
    requires words != [] && forall word | word in words :: ',' !in word
    ensures IsBase64(Joined(words, ',')) <==> "base64" in words
  {
    SplitJoined(words, ',');
  }

  /** Where a record is found: in both replicas, which must agree on its parent and, for a chunk, on its place; in one
      of them; or nowhere. */
  lemma FoundWhere(rows: map<int, Row>, storage: map<int, StorageRecord>, id: int)
    ensures id !in rows && id !in storage ==> Resolve(rows, storage, id) == Err(DoesNotExist)
    ensures id in rows && id !in storage ==>
              var r := Resolve(rows, storage, id);
              r.Ok? && r.value.recordId == id && r.value.parentId == rows[id].parentId
              && r.value.offset == rows[id].offset && r.value.size == rows[id].size
    ensures id !in rows && id in storage ==>
              var r := Resolve(rows, storage, id);
              r.Ok? && r.value.recordId == id && r.value.parentId == storage[id].parentId
              && r.value.offset == storage[id].offset && r.value.size == storage[id].size
    ensures id in rows && id in storage ==>
              var r, row, record := Resolve(rows, storage, id), rows[id], storage[id];
              if row.parentId != record.parentId then r == Err(InconsistentParent)
              else if row.parentId != id && (row.offset != record.offset || row.size != record.size) then
                r == Err(InconsistentChunk)
              else r.Ok? && r.value.recordId == id && r.value.parentId == row.parentId
                   && r.value.offset == row.offset && r.value.size == row.size
  {}

  /** What is read of a payload: all of it for a document, its slice for a chunk, if the slice lies in it, and either
      only if it is text. */
  lemma ReadsText(codec: Codec, record: Resolved, data: Bytes)
    ensures var context := ExtractContext(codec, record, Ok(data));
            && (context.Ok? <==>
                  if record.parentId == record.recordId then codec.isText(data)
                  else 0 <= record.offset && 0 <= record.size && record.offset + record.size <= |data|
                       && codec.isText(data[record.offset..record.offset + record.size]))
            && (context.Ok? ==>
                  && codec.isText(context.value.text) && context.value.parentId == record.parentId
                  && context.value.isDocument == (record.parentId == record.recordId)
                  && context.value.text == if context.value.isDocument then data
                                           else data[record.offset..record.offset + record.size])
            && (context == Err(InvalidBounds) <==>
                  record.parentId != record.recordId && (record.offset < 0 || record.size < 0))
            && (context == Err(ExceedsParent) <==>
                  record.parentId != record.recordId && record.offset >= 0 && record.size >= 0
                  && record.offset + record.size > |data|)
  {}
}
