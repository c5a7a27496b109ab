/** The two replicas of a document store: rows of the database, and directories of the file storage with the records
    that are read from them. Metadata is not part of this model. */
module Records {
  import opened Options
  import opened FileUri

  type Bytes = seq<bv8>

  datatype Row = Row(id: int, filePath: string, offset: int, size: int, parentId: int, docType: string)

  datatype StorageRecord = StorageRecord(fileUri: string, uniqueId: int, offset: int, size: int, parentId: int,
                                         docType: string)

  /** The payload file of a directory, named by the canonical form of a URI. */
  datatype Payload = Payload(stem: string, data: Bytes)

  /** The files that a directory holds; a directory that was left half-written lacks some. */
  datatype Directory = Directory(payload: Option<Payload>, parentId: Option<int>, offset: Option<int>,
                                 size: Option<int>, docType: Option<string>)

  function Or<T>(option: Option<T>, default: T): T { if option.Some? then option.value else default }

  function FromDirectory(id: int, directory: Directory): StorageRecord {
    StorageRecord(if directory.payload.Some? then directory.payload.value.stem else "", id,
                  Or(directory.offset, -1), Or(directory.size, -1), Or(directory.parentId, 0),
                  Or(directory.docType, ""))
  }

  function GetAllRecords(directories: map<int, Directory>): map<int, StorageRecord> {
    map id | id in directories :: FromDirectory(id, directories[id])
  }

  /** The row is stored under its id. */
  ghost predicate Keyed(rows: map<int, Row>) { forall id | id in rows :: rows[id].id == id }

  class Database {
    var rows: map<int, Row>

    constructor ()
      ensures rows == map[]
    {
      rows := map[];
    }

    /** `id` is the next value of the auto-increment column. */
    method CreateFileRecord(id: int, filePath: string, offset: int, size: int, parentId: int, docType: string)
      returns (record: Row)
      requires id !in rows && Keyed(rows)
      modifies this
      ensures record == Row(id, Decanonize(filePath), offset, size, parentId, docType)
      ensures rows == old(rows)[id := record] && Keyed(rows)
    {
      record := Row(id, Decanonize(filePath), offset, size, parentId, docType);
      rows := rows[id := record];
    }

    method CreateFileRecordWithUid(id: int, filePath: string, offset: int, size: int, parentId: int, docType: string)
      returns (created: bool)
      requires Keyed(rows)
      modifies this
      ensures created <==> id !in old(rows)
      ensures Keyed(rows)
      ensures rows == if created then old(rows)[id := Row(id, Decanonize(filePath), offset, size, parentId, docType)]
                      else old(rows)
    {
      if id in rows {
        return false;
      }
      rows := rows[id := Row(id, Decanonize(filePath), offset, size, parentId, docType)];
      created := true;
    }

    method UpdateFileRecordExt(id: int, newRecord: Row) returns (found: bool)
      requires Keyed(rows)
      modifies this
      ensures found <==> id in old(rows)
      ensures Keyed(rows)
      ensures rows == if found then old(rows)[id := newRecord.(id := id, filePath := Decanonize(newRecord.filePath))]
                      else old(rows)
    {
      if id !in rows {
        return false;
      }
      rows := rows[id := newRecord.(id := id, filePath := Decanonize(newRecord.filePath))];
      found := true;
    }

    method DeleteFileRecord(id: int) returns (found: bool)
      requires Keyed(rows)
      modifies this
      ensures found <==> id in old(rows)
      ensures rows == old(rows) - {id} && Keyed(rows)
    {
      found := id in rows;
      rows := rows - {id};
    }
  }
}
