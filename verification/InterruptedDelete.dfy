/** What a synchronization makes of a deletion that failed half-way: some directories are gone, of one a part is left,
    and the table still has all rows. */
module InterruptedDelete {
  import opened Options
  import opened Strings
  import opened FileUri
  import opened Records
  import opened Sync
  import opened Replicas
  import DocStore

  predicate Remains<T(==)>(left: Option<T>, whole: Option<T>) { left == None || left == whole }

  /** Some files of a directory. */
  predicate PartOf(left: Directory, whole: Directory) {
    && Remains(left.payload, whole.payload) && Remains(left.parentId, whole.parentId)
    && Remains(left.offset, whole.offset) && Remains(left.size, whole.size) && Remains(left.docType, whole.docType)
  }

  /** The directories after the failure. */
  function Left(st: Store, gone: set<int>, failed: int, left: Directory): map<int, Directory> {
    (st.directories - gone)[failed := left]
  }

  /** Both replicas after the next synchronization. */
  function Repaired(st: Store, gone: set<int>, failed: int, left: Directory): Store {
    var directories := Left(st, gone, failed, left);
    Store(Synced(st.rows, GetAllRecords(directories)), directories, st.contents - gone)
  }

  ghost predicate Fails(codec: Codec, st: Store, gone: set<int>, failed: int, left: Directory) {
    && Consistent(codec, st) && gone <= st.rows.Keys && failed in st.rows && failed in st.directories && failed !in gone
    && PartOf(left, st.directories[failed])
  }

  /** This is what a deletion from consistent replicas leaves when it fails. */
  lemma DeletionFails(codec: Codec, st: Store, ids: seq<int>, budget: nat, torn: Directory -> Directory,
                      gone: set<int>, failed: int)
    requires Consistent(codec, st)
    requires DocStore.IsInterrupted(DocStore.Targets(st.rows, ids), st.directories, budget, gone, failed)
    requires PartOf(torn(st.directories[failed]), st.directories[failed])
    ensures Fails(codec, st, gone, failed, torn(st.directories[failed]))
    ensures DocStore.Interrupted(st.directories, gone, failed, torn)
         == Left(st, gone, failed, torn(st.directories[failed]))
  {
    hide Consistent, PartOf;
  }

  lemma Kept(codec: Codec, st: Store, gone: set<int>, failed: int, left: Directory, id: int)
    requires Fails(codec, st, gone, failed, left)
    ensures var st' := Repaired(st, gone, failed, left);
            && (id in st'.rows <==> id in st.rows && id !in gone)
            && (id in st'.directories <==> id in st'.rows) && (id in st'.contents <==> id in st'.rows)
            && (id in st.rows ==> RecordFits(codec, st, id) && id in st.directories && id in st.contents)
            && (id in st'.rows && id != failed ==>
                  st'.rows[id] == st.rows[id] && st'.directories[id] == st.directories[id])
            && (id in st'.rows ==> st'.contents[id] == st.contents[id])
            && st'.directories[failed] == left
            && st'.rows[failed] == SyncedRow(st.rows[failed], FromDirectory(failed, left))
  {
    hide FromDirectory, SyncedRow, NewRow, Canonize, DocumentFits, ChunkFits;
    var st' := Repaired(st, gone, failed, left);
    assert id in st.rows || id in st.directories || id in st.contents ==> RecordFits(codec, st, id);
    assert RecordFits(codec, st, failed);
    if id in st.rows && id !in gone && id != failed {
      SyncedRowAgrees(st.rows[id], FromDirectory(id, st.directories[id]));
    }
  }

  /** The table loses exactly the rows whose directories are gone, and one row changes. */
  lemma RowsRepaired(codec: Codec, st: Store, gone: set<int>, failed: int, left: Directory)
    requires Fails(codec, st, gone, failed, left)
    ensures Repaired(st, gone, failed, left).rows
         == (st.rows - gone)[failed := SyncedRow(st.rows[failed], FromDirectory(failed, left))]
  {
    hide Fails, Repaired, FromDirectory, SyncedRow;
    var rows := Repaired(st, gone, failed, left).rows;
    FailedIsKept(codec, st, gone, failed, left);
    Kept(codec, st, gone, failed, left, failed);
    forall id
      ensures id in rows <==> id in st.rows && id !in gone
      ensures id in rows && id != failed ==> rows[id] == st.rows[id]
    {
      Kept(codec, st, gone, failed, left, id);
    }
  }

  lemma FailedIsKept(codec: Codec, st: Store, gone: set<int>, failed: int, left: Directory)
    requires Fails(codec, st, gone, failed, left)
    ensures failed in st.rows && failed !in gone && failed in st.directories
  {}

  /** The document of the failed directory still reads as one. */
  predicate StillReads(left: Directory) { left.payload.Some? && left.parentId.Some? }

  /** Every record outside the failed directory reads as before, unless its document is gone or no longer reads; then it
      is a chunk without a parent. */
  lemma OthersRead(codec: Codec, st: Store, gone: set<int>, failed: int, left: Directory, id: int)
    requires Fails(codec, st, gone, failed, left) && id in st.rows && id !in gone && id != failed
    ensures var st' := Repaired(st, gone, failed, left);
            var parentId := st.rows[id].parentId;
            if parentId in gone || (parentId == failed && !StillReads(left)) then
              ReadId(codec, st'.rows, st'.directories, id).Err?
            else ReadId(codec, st'.rows, st'.directories, id) == ReadId(codec, st.rows, st.directories, id)
  {
    hide Fails, Repaired, Canonize, SyncedRow;
    var parentId := st.rows[id].parentId;
    Kept(codec, st, gone, failed, left, id);
    Kept(codec, st, gone, failed, left, parentId);
    FailedParent(codec, st, gone, failed, left);
    var st' := Repaired(st, gone, failed, left);
    assert id in GetAllRecords(st.directories) && id in GetAllRecords(st'.directories);
  }

  lemma FailedParent(codec: Codec, st: Store, gone: set<int>, failed: int, left: Directory)
    requires Fails(codec, st, gone, failed, left)
    ensures failed > 0 && PartOf(left, st.directories[failed]) && failed !in gone
  {
    hide Canonize, Agrees, DocumentFits, ChunkFits, FromDirectory;
    assert RecordFits(codec, st, failed);
  }

  // ---- When the replicas are consistent again -----------------------------------------------------------------

  /** No chunk has been left without its document. */
  predicate NoOrphans(st: Store, gone: set<int>) {
    forall id | id in st.rows && id !in gone :: st.rows[id].parentId !in gone
  }

  /** All but the type and the metadata of the failed directory is left. */
  predicate KeepsPlace(left: Directory) {
    left.payload.Some? && left.parentId.Some? && left.offset.Some? && left.size.Some?
  }

  /** The type is left, or the remaining chunks do not need it. */
  predicate TypeSpared(codec: Codec, st: Store, gone: set<int>, failed: int, left: Directory)
    requires failed in st.directories
  {
    left.docType == st.directories[failed].docType
    || forall id | id in st.rows && id !in gone && id != failed && st.rows[id].parentId == failed ::
         id in st.contents && codec.isText(st.contents[id])
  }

  lemma FailedFitsIff(codec: Codec, st: Store, gone: set<int>, failed: int, left: Directory)
    requires Fails(codec, st, gone, failed, left)
    ensures RecordFits(codec, Repaired(st, gone, failed, left), failed)
       <==> KeepsPlace(left) && st.rows[failed].parentId !in gone
  {
    hide Fails, Repaired, Canonize, SyncedRow, FileUrisEqual, SplitAt;
    FailedIsKept(codec, st, gone, failed, left);
    var parentId := st.rows[failed].parentId;
    FailedParent(codec, st, gone, failed, left);
    Kept(codec, st, gone, failed, left, failed);
    Kept(codec, st, gone, failed, left, parentId);
    Kept(codec, st, gone, failed, left, 0);
    SyncedRowAgrees(st.rows[failed], FromDirectory(failed, left));
  }

  lemma OtherFitsIff(codec: Codec, st: Store, gone: set<int>, failed: int, left: Directory, id: int)
    requires Fails(codec, st, gone, failed, left) && id in st.rows && id !in gone && id != failed
    ensures id in st.contents
    ensures RecordFits(codec, Repaired(st, gone, failed, left), id)
       <==> st.rows[id].parentId !in gone
            && (st.rows[id].parentId == failed ==>
                  StillReads(left) && (left.docType == st.directories[failed].docType || codec.isText(st.contents[id])))
  {
    hide Fails, Repaired, Canonize, SyncedRow, FileUrisEqual;
    var parentId := st.rows[id].parentId;
    FailedIsKept(codec, st, gone, failed, left);
    FailedParent(codec, st, gone, failed, left);
    Kept(codec, st, gone, failed, left, id);
    Kept(codec, st, gone, failed, left, parentId);
    SyncedRowAgrees(st.rows[failed], FromDirectory(failed, left));
    Untyped();
  }

  lemma Untyped()
    ensures !IsBase64("")
  {
    assert SplitAt("", "", ',') == [""];
  }

  /** After the next synchronization the replicas are consistent again if and only if no remaining chunk has lost its
      document, and of the failed directory all is left that its own record and the chunks attached to it need. */
  lemma ConsistentIff(codec: Codec, st: Store, gone: set<int>, failed: int, left: Directory)
    requires Fails(codec, st, gone, failed, left)
    ensures failed in st.directories
    ensures Consistent(codec, Repaired(st, gone, failed, left))
       <==> NoOrphans(st, gone) && KeepsPlace(left) && TypeSpared(codec, st, gone, failed, left)
  {
    hide Fails, Repaired, RecordFits, KeepsPlace;
    FailedIsKept(codec, st, gone, failed, left);
    var st' := Repaired(st, gone, failed, left);
    Kept(codec, st, gone, failed, left, failed);
    FailedFitsIff(codec, st, gone, failed, left);
    forall id
      ensures id in st'.rows <==> id in st.rows && id !in gone
      ensures id in st'.directories || id in st'.contents ==> id in st'.rows
    {
      Kept(codec, st, gone, failed, left, id);
    }
    forall id | id in st.rows && id !in gone && id != failed
      ensures id in st.contents
      ensures RecordFits(codec, st', id)
         <==> st.rows[id].parentId !in gone
              && (st.rows[id].parentId == failed ==>
                    StillReads(left)
                    && (left.docType == st.directories[failed].docType || codec.isText(st.contents[id])))
    {
      OtherFitsIff(codec, st, gone, failed, left, id);
    }
    PlaceReads(left);
  }

  lemma PlaceReads(left: Directory)
    ensures KeepsPlace(left) ==> StillReads(left)
  {}
}
