/** Bringing the database in line with the file storage. */
module Sync {
  import opened FileUri
  import opened Records
  import opened Sets

  datatype SyncResult = SyncResult(created: nat, updated: nat, deleted: nat, notChanged: int)

  /** The row and the storage record agree on every synced field, on the path up to its stored form. */
  predicate Agrees(row: Row, record: StorageRecord) {
    && FileUrisEqual(row.filePath, record.fileUri)
    && row.offset == record.offset && row.size == record.size && row.parentId == record.parentId
    && row.docType == record.docType
  }

  method ApplyStorageFields(row: Row, record: StorageRecord) returns (changed: bool, row': Row)
    ensures changed <==> !Agrees(row, record)
    ensures row' == row.(filePath := if FileUrisEqual(row.filePath, record.fileUri) then row.filePath
                                     else Decanonize(record.fileUri),
                         offset := record.offset, size := record.size, parentId := record.parentId,
                         docType := record.docType)
  {
    changed, row' := false, row;
    var storagePath := Decanonize(record.fileUri);
    if !FileUrisEqual(row'.filePath, record.fileUri) {
      row', changed := row'.(filePath := storagePath), true;
    }
    if row'.offset != record.offset {
      row', changed := row'.(offset := record.offset), true;
    }
    if row'.size != record.size {
      row', changed := row'.(size := record.size), true;
    }
    if row'.parentId != record.parentId {
      row', changed := row'.(parentId := record.parentId), true;
    }
    if row'.docType != record.docType {
      row', changed := row'.(docType := record.docType), true;
    }
  }

  /** The row after a synchronization with its storage record. */
  function SyncedRow(row: Row, record: StorageRecord): Row {
    if Agrees(row, record) then row
    else Row(row.id, Decanonize(if FileUrisEqual(row.filePath, record.fileUri) then row.filePath
                                else Decanonize(record.fileUri)),
             record.offset, record.size, record.parentId, record.docType)
  }

  function NewRow(id: int, record: StorageRecord): Row {
    Row(id, Decanonize(Decanonize(record.fileUri)), record.offset, record.size, record.parentId, record.docType)
  }

  function Synced(rows: map<int, Row>, storage: map<int, StorageRecord>): map<int, Row> {
    map id | id in storage :: if id in rows then SyncedRow(rows[id], storage[id]) else NewRow(id, storage[id])
  }

  function Unequal(rows: map<int, Row>, storage: map<int, StorageRecord>): set<int> {
    set id | id in rows && id in storage && !Agrees(rows[id], storage[id])
  }

  ghost predicate WellKeyed(storage: map<int, StorageRecord>) {
    forall id | id in storage :: storage[id].uniqueId == id
  }

  /** The list of all rows of the table, in some order. */
  ghost predicate Lists(all: seq<Row>, rows: map<int, Row>) {
    && (forall i | 0 <= i < |all| :: all[i].id in rows && rows[all[i].id] == all[i])
    && (forall id | id in rows :: rows[id] in all)
    && (forall i, j | 0 <= i < j < |all| :: all[i].id != all[j].id)
  }

  function Known(all: seq<Row>, storage: map<int, StorageRecord>): seq<Row> {
    if all == [] then []
    else
      var last := all[|all| - 1];
      Known(all[..|all| - 1], storage) + if last.id in storage then [last] else []
  }

  function Unknown(all: seq<Row>, storage: map<int, StorageRecord>): set<int> {
    if all == [] then {}
    else
      var last := all[|all| - 1];
      Unknown(all[..|all| - 1], storage) + if last.id in storage then {} else {last.id}
  }

  /** The row has an entry in the list. */
  predicate HasId(all: seq<Row>, id: int) { exists i | 0 <= i < |all| :: all[i].id == id }

  lemma {:induction false} KnownElements(all: seq<Row>, storage: map<int, StorageRecord>)
    ensures forall row :: row in Known(all, storage) <==> row in all && row.id in storage
    ensures forall id :: id in Unknown(all, storage) <==> id !in storage && exists row :: row in all && row.id == id
  {
    if all != [] {
      var front, last := all[..|all| - 1], all[|all| - 1];
      KnownElements(front, storage);
      assert forall row :: row in all <==> row in front || row == last;
    }
  }

  /** No id occurs twice. */
  ghost predicate Distinct(all: seq<Row>) { forall i, j | 0 <= i < j < |all| :: all[i].id != all[j].id }

  lemma {:induction false} KnownDistinct(all: seq<Row>, storage: map<int, StorageRecord>)
    requires Distinct(all)
    ensures Distinct(Known(all, storage))
  {
    if all != [] {
      var front, last := all[..|all| - 1], all[|all| - 1];
      KnownDistinct(front, storage);
      KnownElements(front, storage);
      forall row | row in Known(front, storage) ensures row.id != last.id {
        var i :| 0 <= i < |front| && front[i] == row;
      }
    }
  }

  lemma {:induction false} DistinctSize(all: seq<Row>, ids: set<int>)
    requires Distinct(all) && (forall row | row in all :: row.id in ids)
    requires forall id | id in ids :: exists row :: row in all && row.id == id
    ensures |all| == |ids|
    decreases |all|
  {
    if all == [] {
      assert ids == {};
    } else {
      var front, last := all[..|all| - 1], all[|all| - 1];
      assert last in all && forall row :: row in all <==> row in front || row == last;
      forall row | row in front ensures row.id in ids - {last.id} {
        var i :| 0 <= i < |front| && front[i] == row;
      }
      DistinctSize(front, ids - {last.id});
      assert ids == ids - {last.id} + {last.id};
    }
  }

  lemma ListsSize(all: seq<Row>, rows: map<int, Row>)
    requires Lists(all, rows) && Keyed(rows)
    ensures |all| == |rows.Keys|
  {
    forall id | id in rows.Keys ensures exists row :: row in all && row.id == id {
      assert rows[id] in all && rows[id].id == id;
    }
    DistinctSize(all, rows.Keys);
  }

  /** The rows that storage knows. */
  function Kept(rows: map<int, Row>, storage: map<int, StorageRecord>): map<int, Row> {
    map id | id in rows && id in storage :: rows[id]
  }

  lemma KnownKeeps(all: seq<Row>, rows: map<int, Row>, storage: map<int, StorageRecord>)
    requires Lists(all, rows) && Keyed(rows)
    ensures Lists(Known(all, storage), Kept(rows, storage))
  {
    hide Known;
    var kept, known := Kept(rows, storage), Known(all, storage);
    KnownElements(all, storage);
    KnownDistinct(all, storage);
    forall i | 0 <= i < |known| ensures known[i].id in kept && kept[known[i].id] == known[i] {
      assert known[i] in all;
    }
    forall id | id in kept ensures kept[id] in known {
      assert rows[id] in all && rows[id].id == id;
    }
  }

  lemma UnknownGoes(all: seq<Row>, rows: map<int, Row>, storage: map<int, StorageRecord>)
    requires Lists(all, rows) && Keyed(rows)
    ensures rows - Unknown(all, storage) == Kept(rows, storage)
  {
    hide Unknown, Known;
    KnownElements(all, storage);
    forall id | id in rows ensures id !in storage <==> id in Unknown(all, storage) {
      assert rows[id] in all && rows[id].id == id;
    }
  }

  lemma KnownLists(all: seq<Row>, rows: map<int, Row>, storage: map<int, StorageRecord>)
    requires Lists(all, rows) && Keyed(rows)
    ensures Lists(Known(all, storage), Kept(rows, storage))
    ensures rows - Unknown(all, storage) == Kept(rows, storage)
    ensures |all| - |Known(all, storage)| == |rows.Keys - storage.Keys|
  {
    hide Lists, Known, Unknown, Kept;
    KnownKeeps(all, rows, storage);
    UnknownGoes(all, rows, storage);
    KeysSplit(rows, storage);
    ListsSize(all, rows);
    ListsSize(Known(all, storage), Kept(rows, storage));
  }

  lemma KeysSplit(rows: map<int, Row>, storage: map<int, StorageRecord>)
    ensures |rows.Keys| == |Kept(rows, storage).Keys| + |rows.Keys - storage.Keys|
    ensures Keyed(rows) ==> Keyed(Kept(rows, storage))
  {
    assert rows.Keys == Kept(rows, storage).Keys + (rows.Keys - storage.Keys);
  }

  lemma KnownGrows(rows: map<int, Row>, all: seq<Row>, i: nat, storage: map<int, StorageRecord>)
    requires i < |all|
    ensures Known(all[..i + 1], storage)
         == if all[i].id in storage then Known(all[..i], storage) + [all[i]] else Known(all[..i], storage)
    ensures rows - Unknown(all[..i + 1], storage)
         == if all[i].id in storage then rows - Unknown(all[..i], storage)
            else rows - Unknown(all[..i], storage) - {all[i].id}
  {
    assert all[..i + 1][..i] == all[..i];
    assert Unknown(all[..i], storage) + {} == Unknown(all[..i], storage);
  }

  /** The rows that storage does not know are deleted. */
  method DeleteUnknown(session: Database, all: seq<Row>, storage: map<int, StorageRecord>)
    returns (deleted: nat, toUpdate: seq<Row>)
    requires Keyed(session.rows) && Lists(all, session.rows)
    modifies session
    ensures Keyed(session.rows) && Lists(toUpdate, session.rows)
    ensures session.rows == Kept(old(session.rows), storage)
    ensures deleted == |old(session.rows).Keys - storage.Keys|
  {
    hide Lists, Kept, Known, Unknown;
    deleted, toUpdate := 0, [];
    ghost var rows0 := session.rows;
    KnownNone(rows0, all, storage);
    for i := 0 to |all|
      invariant Keyed(session.rows) && deleted == i - |toUpdate|
      invariant session.rows == rows0 - Unknown(all[..i], storage)
      invariant toUpdate == Known(all[..i], storage)
    {
      KnownGrows(rows0, all, i, storage);
      if all[i].id !in storage {
        var _ := session.DeleteFileRecord(all[i].id);
        deleted := deleted + 1;
      } else {
        toUpdate := toUpdate + [all[i]];
      }
    }
    KnownAll(all);
    KnownLists(all, rows0, storage);
  }

  lemma KnownNone(rows: map<int, Row>, all: seq<Row>, storage: map<int, StorageRecord>)
    ensures Known(all[..0], storage) == [] && rows - Unknown(all[..0], storage) == rows
  {}

  lemma KnownAll(all: seq<Row>)
    ensures all[..|all|] == all
  {}

  /** The row that an update leaves, however it was listed. */
  lemma AppliedIsSynced(row: Row, record: StorageRecord, row': Row)
    requires row' == row.(filePath := if FileUrisEqual(row.filePath, record.fileUri) then row.filePath
                                      else Decanonize(record.fileUri),
                          offset := record.offset, size := record.size, parentId := record.parentId,
                          docType := record.docType)
    ensures Agrees(row, record) ==> SyncedRow(row, record) == row
    ensures !Agrees(row, record) ==> SyncedRow(row, record) == row'.(filePath := Decanonize(row'.filePath))
  {}

  /** The first `i` of the listed rows are in line with storage. */
  function PartlySynced(rows: map<int, Row>, listed: seq<Row>, storage: map<int, StorageRecord>): map<int, Row> {
    map id | id in rows :: if HasId(listed, id) && id in storage then SyncedRow(rows[id], storage[id]) else rows[id]
  }

  function CountUnequal(listed: seq<Row>, storage: map<int, StorageRecord>): nat {
    if listed == [] then 0
    else
      var last := listed[|listed| - 1];
      CountUnequal(listed[..|listed| - 1], storage)
      + if last.id in storage && !Agrees(last, storage[last.id]) then 1 else 0
  }

  lemma HasIdGrows(listed: seq<Row>, i: nat, id: int)
    requires i < |listed|
    ensures HasId(listed[..i + 1], id) <==> HasId(listed[..i], id) || listed[i].id == id
  {
    if HasId(listed[..i], id) {
      var j :| 0 <= j < i && listed[..i][j].id == id;
      assert listed[..i + 1][j].id == id;
    }
    if listed[i].id == id {
      assert listed[..i + 1][i].id == id;
    }
    if HasId(listed[..i + 1], id) && listed[i].id != id {
      var j :| 0 <= j < i + 1 && listed[..i + 1][j].id == id;
      assert listed[..i][j].id == id;
    }
  }

  lemma PartlySyncedGrows(rows: map<int, Row>, listed: seq<Row>, i: nat, storage: map<int, StorageRecord>)
    requires Lists(listed, rows) && i < |listed| && listed[i].id in storage
    ensures var id := listed[i].id;
            && id in rows && rows[id] == listed[i] && id in PartlySynced(rows, listed[..i], storage)
            && PartlySynced(rows, listed[..i], storage)[id] == rows[id]
            && PartlySynced(rows, listed[..i + 1], storage)
               == PartlySynced(rows, listed[..i], storage)[id := SyncedRow(rows[id], storage[id])]
  {
    hide SyncedRow;
    var id := listed[i].id;
    forall j | 0 <= j < i ensures listed[..i][j].id != id {
      assert listed[j].id != listed[i].id;
    }
    forall x ensures HasId(listed[..i + 1], x) <==> HasId(listed[..i], x) || x == id {
      HasIdGrows(listed, i, x);
    }
  }

  /** The rows that storage knows are updated where they differ. */
  method UpdateKnown(session: Database, listed: seq<Row>, storage: map<int, StorageRecord>) returns (updated: nat)
    requires Keyed(session.rows) && Lists(listed, session.rows)
    requires forall row | row in listed :: row.id in storage
    modifies session
    ensures Keyed(session.rows)
    ensures session.rows == PartlySynced(old(session.rows), listed, storage)
    ensures updated == CountUnequal(listed, storage)
  {
    hide SyncedRow, Agrees, Lists, PartlySynced;
    updated := 0;
    ghost var rows0 := session.rows;
    NothingSynced(rows0, storage);
    for i := 0 to |listed|
      invariant Keyed(session.rows)
      invariant session.rows == PartlySynced(rows0, listed[..i], storage)
      invariant updated == CountUnequal(listed[..i], storage)
    {
      var row := listed[i];
      assert row in listed && listed[..i + 1][..i] == listed[..i];
      PartlySyncedGrows(rows0, listed, i, storage);
      var changed, row' := ApplyStorageFields(row, storage[row.id]);
      AppliedIsSynced(row, storage[row.id], row');
      if changed {
        var _ := session.UpdateFileRecordExt(row.id, row');
        updated := updated + 1;
      } else {
        assert session.rows[row.id] == row;
        assert session.rows[row.id := row] == session.rows;
      }
    }
    assert listed[..|listed|] == listed;
  }

  lemma NothingSynced(rows: map<int, Row>, storage: map<int, StorageRecord>)
    ensures PartlySynced(rows, [], storage) == rows
  {}

  function NewRows(remaining: map<int, StorageRecord>): map<int, Row> {
    map id | id in remaining :: NewRow(id, remaining[id])
  }

  /** The rows when all but the ids in `left` have been created. */
  function PartlyCreated(rows: map<int, Row>, remaining: map<int, StorageRecord>, left: set<int>): map<int, Row> {
    rows + NewRows(remaining - left)
  }

  lemma PartlyCreatedGrows(rows: map<int, Row>, remaining: map<int, StorageRecord>, left: set<int>, id: int)
    requires id in left && id in remaining && rows.Keys !! remaining.Keys
    ensures id !in PartlyCreated(rows, remaining, left)
    ensures PartlyCreated(rows, remaining, left)[id := NewRow(id, remaining[id])]
         == PartlyCreated(rows, remaining, left - {id})
  {
    hide NewRow;
  }

  lemma PartlyCreatedEnds(rows: map<int, Row>, remaining: map<int, StorageRecord>)
    ensures PartlyCreated(rows, remaining, remaining.Keys) == rows
    ensures PartlyCreated(rows, remaining, {}) == rows + NewRows(remaining)
  {
    hide NewRow;
    assert remaining - {} == remaining && remaining - remaining.Keys == map[];
  }

  /** The records that the database does not have yet are created, in any order. */
  method CreateMissing(session: Database, remaining: map<int, StorageRecord>)
    requires Keyed(session.rows) && WellKeyed(remaining) && session.rows.Keys !! remaining.Keys
    modifies session
    ensures Keyed(session.rows)
    ensures session.rows == old(session.rows) + NewRows(remaining)
  {
    hide PartlyCreated, NewRows;
    var left := remaining.Keys;
    ghost var rows0 := session.rows;
    PartlyCreatedEnds(rows0, remaining);
    while left != {}
      invariant Keyed(session.rows) && left <= remaining.Keys
      invariant session.rows == PartlyCreated(rows0, remaining, left)
      decreases |left|
    {
      ghost var some := HasElement(left);
      var id :| id in left;
      var record := remaining[id];
      PartlyCreatedGrows(rows0, remaining, left, id);
      var _ := session.CreateFileRecordWithUid(record.uniqueId, Decanonize(record.fileUri), record.offset,
                                               record.size, record.parentId, record.docType);
      left := left - {id};
    }
  }

  lemma {:induction false} UnequalCount(listed: seq<Row>, storage: map<int, StorageRecord>, ids: set<int>)
    requires Distinct(listed)
    requires forall id :: id in ids <==> exists row :: row in listed && row.id == id && id in storage
                                                      && !Agrees(row, storage[id])
    ensures CountUnequal(listed, storage) == |ids|
    decreases |listed|
  {
    hide Agrees;
    if listed == [] {
      assert ids == {};
    } else {
      var front, last := listed[..|listed| - 1], listed[|listed| - 1];
      assert last in listed && forall row :: row in listed <==> row in front || row == last;
      assert Distinct(front);
      forall row | row in front ensures row.id != last.id {
        var i :| 0 <= i < |front| && front[i] == row;
        assert listed[i].id != listed[|listed| - 1].id;
      }
      UnequalCount(front, storage, ids - {last.id});
      if last.id in ids {
        assert ids == ids - {last.id} + {last.id};
      } else {
        assert ids == ids - {last.id};
      }
    }
  }

  lemma ListedUnequal(rows: map<int, Row>, listed: seq<Row>, storage: map<int, StorageRecord>)
    requires Lists(listed, Kept(rows, storage)) && Keyed(rows)
    ensures CountUnequal(listed, storage) == |Unequal(rows, storage)|
  {
    hide Agrees, CountUnequal;
    forall id
      ensures id in Unequal(rows, storage) <==> exists row :: row in listed && row.id == id && id in storage
                                                             && !Agrees(row, storage[id])
    {
      if id in Unequal(rows, storage) {
        assert Kept(rows, storage)[id] in listed && rows[id].id == id;
      }
    }
    UnequalCount(listed, storage, Unequal(rows, storage));
  }

  lemma ListedIds(rows: map<int, Row>, listed: seq<Row>, storage: map<int, StorageRecord>)
    requires Lists(listed, Kept(rows, storage)) && Keyed(rows)
    ensures (set row | row in listed :: row.id) == rows.Keys * storage.Keys
    ensures forall row | row in listed :: row.id in storage
    ensures forall id | id in rows && id in storage :: HasId(listed, id)
  {
    var ids := set row | row in listed :: row.id;
    forall row | row in listed ensures row.id in rows.Keys * storage.Keys {
      var i :| 0 <= i < |listed| && listed[i] == row;
      assert row.id in Kept(rows, storage);
    }
    assert ids <= rows.Keys * storage.Keys;
    forall id | id in rows && id in storage ensures id in ids && HasId(listed, id) {
      var row := Kept(rows, storage)[id];
      assert row in listed;
      var i :| 0 <= i < |listed| && listed[i] == row;
      assert listed[i].id == id;
    }
    forall id | id in rows.Keys * storage.Keys ensures id in ids {
      assert id in rows && id in storage;
    }
  }

  lemma SyncedInParts(rows: map<int, Row>, listed: seq<Row>, storage: map<int, StorageRecord>)
    requires forall id | id in rows && id in storage :: HasId(listed, id)
    ensures PartlySynced(Kept(rows, storage), listed, storage) + NewRows(storage - rows.Keys * storage.Keys)
         == Synced(rows, storage)
    ensures PartlySynced(Kept(rows, storage), listed, storage).Keys !! (storage - rows.Keys * storage.Keys).Keys
  {
    hide SyncedRow, NewRow, HasId;
  }

  lemma SetCounts(a: set<int>, b: set<int>, common: set<int>)
    requires common <= a * b
    ensures |a| == |a - b| + |common| + |a * b - common|
  {
    assert a == a * b + (a - b);
    assert a * b == common + (a * b - common);
  }

  lemma CountsAddUp(rows: map<int, Row>, storage: map<int, StorageRecord>)
    ensures |storage - rows.Keys * storage.Keys| == |storage.Keys - rows.Keys|
    ensures |storage| == |storage.Keys - rows.Keys| + |Unequal(rows, storage)|
                         + |rows.Keys * storage.Keys - Unequal(rows, storage)|
    ensures |rows| == |rows.Keys - storage.Keys| + |Unequal(rows, storage)|
                      + |rows.Keys * storage.Keys - Unequal(rows, storage)|
  {
    hide Agrees;
    var a, b, unequal := rows.Keys, storage.Keys, Unequal(rows, storage);
    assert unequal <= a * b && unequal <= b * a && a * b == b * a;
    hide Unequal;
    SetCounts(a, b, unequal);
    SetCounts(b, a, unequal);
    assert |storage| == |b| && |rows| == |a|;
    assert (storage - a * b).Keys == b - a;
    assert |storage - a * b| == |(storage - a * b).Keys|;
  }

  /** What a synchronization counts. */
  function Counted(rows: map<int, Row>, storage: map<int, StorageRecord>): SyncResult {
    SyncResult(|storage.Keys - rows.Keys|, |Unequal(rows, storage)|, |rows.Keys - storage.Keys|,
               |rows.Keys * storage.Keys - Unequal(rows, storage)|)
  }

  method SynchronizeRecords(session: Database, all: seq<Row>, storage: map<int, StorageRecord>)
    returns (result: SyncResult)
    requires Keyed(session.rows) && Lists(all, session.rows) && WellKeyed(storage)
    modifies session
    ensures Keyed(session.rows)
    ensures session.rows == Synced(old(session.rows), storage)
    ensures result == Counted(old(session.rows), storage)
  {
    hide Synced, PartlySynced, NewRows, Lists, Unequal, CountUnequal, Kept, HasId;
    ghost var rows0 := session.rows;
    var untouched := |storage|;
    var deleted, toUpdate := DeleteUnknown(session, all, storage);
    ListedIds(rows0, toUpdate, storage);
    ListedUnequal(rows0, toUpdate, storage);
    SyncedInParts(rows0, toUpdate, storage);
    CountsAddUp(rows0, storage);
    var updated := UpdateKnown(session, toUpdate, storage);
    var remaining := storage - (set row | row in toUpdate :: row.id);
    var created := |remaining|;
    untouched := untouched - updated - created;
    CreateMissing(session, remaining);
    result := SyncResult(created, updated, deleted, untouched);
  }

  // ---- What a synchronization achieves ------------------------------------------------------------------------

  lemma SyncedRowAgrees(row: Row, record: StorageRecord)
    ensures Agrees(SyncedRow(row, record), record) && SyncedRow(row, record).id == row.id
    ensures Agrees(row, record) ==> SyncedRow(row, record) == row
  {
    hide Canonize, Decanonize;
    CanonizeAfterDecanonize(record.fileUri);
    CanonizeAfterDecanonize(Decanonize(record.fileUri));
    CanonizeAfterDecanonize(row.filePath);
  }

  lemma NewRowAgrees(id: int, record: StorageRecord)
    ensures Agrees(NewRow(id, record), record) && NewRow(id, record).id == id
  {
    hide Canonize, Decanonize;
    CanonizeAfterDecanonize(record.fileUri);
    CanonizeAfterDecanonize(Decanonize(record.fileUri));
  }

  lemma Accounts(rows: map<int, Row>, storage: map<int, StorageRecord>)
    ensures var counted := Counted(rows, storage);
            && counted.created + counted.updated + counted.notChanged == |storage|
            && counted.deleted + counted.updated + counted.notChanged == |rows|
  {
    CountsAddUp(rows, storage);
  }

  /** From any table and any storage: afterwards the database has exactly the ids of storage, every row agrees with its
      record, rows that agreed before are untouched, the counts account for both sides, and a second synchronization
      finds nothing to do. */
  lemma SynchronizationSettles(rows: map<int, Row>, storage: map<int, StorageRecord>)
    requires Keyed(rows)
    ensures var synced, counted := Synced(rows, storage), Counted(rows, storage);
            && InLine(synced, storage) && Keyed(synced)
            && (forall id | id in rows && id in storage && Agrees(rows[id], storage[id]) :: synced[id] == rows[id])
            && counted.created + counted.updated + counted.notChanged == |storage|
            && counted.deleted + counted.updated + counted.notChanged == |rows|
            && Synced(synced, storage) == synced
            && Counted(synced, storage) == SyncResult(0, 0, 0, |storage|)
  {
    hide Agrees, SyncedRow, NewRow, Counted;
    var synced := Synced(rows, storage);
    Accounts(rows, storage);
    forall id | id in storage
      ensures Agrees(synced[id], storage[id]) && synced[id].id == id
      ensures id in rows && Agrees(rows[id], storage[id]) ==> synced[id] == rows[id]
    {
      if id in rows {
        SyncedRowAgrees(rows[id], storage[id]);
      } else {
        NewRowAgrees(id, storage[id]);
      }
    }
    assert synced.Keys == storage.Keys;
    InLineStays(synced, storage);
  }

  /** Every id is on both sides and every row agrees with its record. */
  predicate InLine(rows: map<int, Row>, storage: map<int, StorageRecord>) {
    rows.Keys == storage.Keys && forall id | id in storage :: Agrees(rows[id], storage[id])
  }

  /** A database in line with storage is left as it is, and only for such a one nothing is counted. */
  lemma InLineStays(rows: map<int, Row>, storage: map<int, StorageRecord>)
    ensures InLine(rows, storage) <==> Counted(rows, storage) == SyncResult(0, 0, 0, |storage|)
    ensures InLine(rows, storage) ==> Synced(rows, storage) == rows
  {
    hide Agrees, NewRow;
    CountsAddUp(rows, storage);
    if InLine(rows, storage) {
      NothingApart(rows, storage);
    }
    if Counted(rows, storage) == SyncResult(0, 0, 0, |storage|) {
      NothingCounted(rows, storage);
    }
  }

  lemma NothingApart(rows: map<int, Row>, storage: map<int, StorageRecord>)
    requires InLine(rows, storage)
    ensures storage.Keys - rows.Keys == {} && rows.Keys - storage.Keys == {} && Unequal(rows, storage) == {}
    ensures Synced(rows, storage) == rows
  {
    hide Agrees, NewRow;
    forall id ensures id in rows <==> id in storage {
      assert id in rows.Keys <==> id in storage.Keys;
    }
    forall id | id in storage ensures Agrees(rows[id], storage[id]) && SyncedRow(rows[id], storage[id]) == rows[id] {
      assert id in rows;
    }
    assert Synced(rows, storage).Keys == rows.Keys;
  }

  lemma NothingCounted(rows: map<int, Row>, storage: map<int, StorageRecord>)
    requires |storage.Keys - rows.Keys| == 0 && |rows.Keys - storage.Keys| == 0 && |Unequal(rows, storage)| == 0
    ensures InLine(rows, storage)
  {
    hide Agrees;
    assert storage.Keys - rows.Keys == {} && rows.Keys - storage.Keys == {} && Unequal(rows, storage) == {};
    forall id | id in storage ensures id in rows && Agrees(rows[id], storage[id]) {
      assert id !in storage.Keys - rows.Keys && id !in Unequal(rows, storage);
    }
  }
}
