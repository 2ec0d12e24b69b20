/** db/cassandra/root_document.go and db/sqlite/root_document.go: the root document table of the two
    backends. One upserts the non-empty columns; the other reads, merges in memory and writes every
    column back. They are shown to answer alike. */
module Backends {
  import opened Common
  import opened RootDocuments
  import opened Store

  datatype Column =
    | Bitmap | FirmwareVersion | ModelName | PartnerId | SchemaVersion | Version | QueryParams | LockedTill
    | ProductClass | AccountType

  datatype Value = Num(n: int) | Text(s: string)

  /** The columns of a row that are not null. */
  type Row = map<Column, Value>

  function NumAt(row: Row, col: Column): int {
    if col in row && row[col].Num? then row[col].n else 0
  }

  function TextAt(row: Row, col: Column): string {
    if col in row && row[col].Text? then row[col].s else ""
  }

  /** A scan of all columns: a null column reads as its zero value. */
  function Scanned(row: Row): RootDoc {
    RootDoc(NumAt(row, Bitmap), TextAt(row, FirmwareVersion), TextAt(row, ModelName), TextAt(row, PartnerId),
            TextAt(row, SchemaVersion), TextAt(row, Version), TextAt(row, QueryParams), NumAt(row, LockedTill),
            TextAt(row, ProductClass), TextAt(row, AccountType))
  }

  /** The SQLite scan leaves out query parameters and lock. */
  function Eight(rd: RootDoc): RootDoc {
    rd.(queryParams := "", lockedTill := 0)
  }

  // ---------- NonEmptyColumnMap ----------

  function TextColumns(rd: RootDoc): map<Column, string> {
    map[FirmwareVersion := rd.firmwareVersion, ModelName := rd.modelName, PartnerId := rd.partnerId,
        SchemaVersion := rd.schemaVersion, Version := rd.version, QueryParams := rd.queryParams,
        ProductClass := rd.productClass, AccountType := rd.accountType]
  }

  function NumColumns(rd: RootDoc): Row {
    (if rd.bitmap > 0 then map[Bitmap := Num(rd.bitmap)] else map[]) +
    (if rd.lockedTill > 0 then map[LockedTill := Num(rd.lockedTill)] else map[])
  }

  function NonEmpty(texts: map<Column, string>): Row {
    map col | col in texts && texts[col] != "" :: Text(texts[col])
  }

  function NonEmptyColumns(rd: RootDoc): Row {
    NumColumns(rd) + NonEmpty(TextColumns(rd))
  }

  method NonEmptyColumnMap(rd: RootDoc) returns (dict: Row)
    ensures dict == NonEmptyColumns(rd)
  {
    dict := map[];
    if rd.bitmap > 0 {
      dict := dict[Bitmap := Num(rd.bitmap)];
    }
    if rd.lockedTill > 0 {
      dict := dict[LockedTill := Num(rd.lockedTill)];
    }
    assert dict == NumColumns(rd);
    dict := AddNonEmpty(dict, TextColumns(rd));
  }

  /** The loop over tempDict. */
  method AddNonEmpty(nums: Row, tempDict: map<Column, string>) returns (dict: Row)
    ensures dict == nums + NonEmpty(tempDict)
  {
    dict := nums;
    var todo := tempDict.Keys;
    while todo != {}
      invariant todo <= tempDict.Keys
      invariant dict == nums + map col | col in tempDict && col !in todo && tempDict[col] != "" :: Text(tempDict[col])
      decreases todo
    {
      var col :| col in todo;
      if |tempDict[col]| > 0 {
        dict := dict[col := Text(tempDict[col])];
      }
      todo := todo - {col};
    }
  }

  // ---------- the operations on one row ----------

  datatype Op = SetDocument(rd: RootDoc) | SetVersion(version: string) | SetBitmap(bitmap: int) | DeleteVersion | Delete

  function Columns(row: Option<Row>): Row {
    row.GetOr(map[])
  }

  /** Cassandra: every INSERT is an upsert; deleting a column of an absent row creates nothing. */
  function Upserted(row: Option<Row>, op: Op): Option<Row> {
    match op
    case SetDocument(rd) => Some(Columns(row) + NonEmptyColumns(rd))
    case SetVersion(version) => Some(Columns(row)[Version := Text(version)])
    case SetBitmap(bitmap) => Some(Columns(row)[Bitmap := Num(bitmap)])
    case DeleteVersion => if row.None? then None else Some(row.value - {Version})
    case Delete => None
  }

  /** The eight columns insertRootDocument and updateRootDocument write. */
  function EightColumns(rd: RootDoc): Row {
    map[Bitmap := Num(rd.bitmap), FirmwareVersion := Text(rd.firmwareVersion), ModelName := Text(rd.modelName),
        PartnerId := Text(rd.partnerId), SchemaVersion := Text(rd.schemaVersion), Version := Text(rd.version),
        ProductClass := Text(rd.productClass), AccountType := Text(rd.accountType)]
  }

  /** SQLite: an absent row is inserted, a present one is read, updated in memory and written back. */
  function Rewritten(row: Option<Row>, op: Op): Option<Row> {
    match op
    case SetDocument(rd) =>
      if row.None? then Some(EightColumns(rd))
      else Some(row.value + EightColumns(Updated(Eight(Scanned(row.value)), rd)))
    case SetVersion(version) => Some(Columns(row)[Version := Text(version)])
    case SetBitmap(bitmap) => Some(Columns(row)[Bitmap := Num(bitmap)])
    case DeleteVersion => if row.None? then None else Some(row.value - {Version})
    case Delete => None
  }

  /** What GetRootDocument answers, in the eight fields both backends read; None is not-found. */
  function Answer(row: Option<Row>): Option<RootDoc> {
    if row.None? then None else Some(Eight(Scanned(row.value)))
  }

  // ---------- the column upsert is the field merge of the store model ----------

  lemma TextUpsert(row: Row, nums: Row, texts: map<Column, string>, col: Column)
    requires col in texts && col !in nums
    ensures TextAt(row + (nums + NonEmpty(texts)), col) == Newer(TextAt(row, col), texts[col])
  {
  }

  lemma NumUpsert(row: Row, nums: Row, texts: map<Column, string>, col: Column)
    requires col !in texts
    ensures NumAt(row + (nums + NonEmpty(texts)), col) == if col in nums then NumAt(nums, col) else NumAt(row, col)
  {
  }

  /** Writing the non-empty columns is the merge that the device model stores, all ten fields. */
  lemma UpsertIsStoredRoot(row: Option<Row>, rd: RootDoc)
    ensures Upserted(row, SetDocument(rd)).Some?
    ensures Scanned(Upserted(row, SetDocument(rd)).value)
         == StoredRoot(if row.None? then None else Some(Scanned(row.value)), rd)
  {
    MergedColumns(Columns(row), rd);
    assert row.None? ==> Scanned(map[]) == NO_ROOT;
  }

  lemma MergedColumns(cols: Row, rd: RootDoc)
    ensures Scanned(cols + NonEmptyColumns(rd)) == StoredRoot(Some(Scanned(cols)), rd)
  {
    var nums, texts := NumColumns(rd), TextColumns(rd);
    TextUpsert(cols, nums, texts, FirmwareVersion);
    TextUpsert(cols, nums, texts, ModelName);
    TextUpsert(cols, nums, texts, PartnerId);
    TextUpsert(cols, nums, texts, SchemaVersion);
    TextUpsert(cols, nums, texts, Version);
    TextUpsert(cols, nums, texts, QueryParams);
    TextUpsert(cols, nums, texts, ProductClass);
    TextUpsert(cols, nums, texts, AccountType);
    NumUpsert(cols, nums, texts, Bitmap);
    NumUpsert(cols, nums, texts, LockedTill);
  }

  lemma EightColumnsScan(row: Row, rd: RootDoc)
    ensures Eight(Scanned(row + EightColumns(rd))) == Eight(rd)
  {
  }

  lemma RewriteAnswers(row: Option<Row>, rd: RootDoc)
    ensures Answer(Rewritten(row, SetDocument(rd)))
         == Some(if row.None? then Eight(rd) else Eight(Updated(Eight(Scanned(row.value)), rd)))
  {
    if row.None? {
      EightColumnsScan(map[], rd);
      assert map[] + EightColumns(rd) == EightColumns(rd);
    } else {
      EightColumnsScan(row.value, Updated(Eight(Scanned(row.value)), rd));
    }
  }

  /** One operation on rows that answer alike leaves rows that answer alike, except when it creates
      the row from a document with a negative bitmap. */
  lemma OneOperation(c: Option<Row>, s: Option<Row>, op: Op)
    requires Answer(c) == Answer(s)
    ensures Answer(Upserted(c, op)) == Answer(Rewritten(s, op))
            <==> !(op.SetDocument? && c.None? && op.rd.bitmap < 0)
  {
    if op.SetDocument? {
      SetDocumentAnswers(c, s, op.rd);
    } else if c.Some? {
      ColumnOperation(c.value, s.value, op);
    }
  }

  /** One column set or cleared, as the scan shows it. */
  lemma VersionSet(row: Row, version: string)
    ensures Scanned(row[Version := Text(version)]) == Scanned(row).(version := version)
  {
  }

  lemma BitmapSet(row: Row, bitmap: int)
    ensures Scanned(row[Bitmap := Num(bitmap)]) == Scanned(row).(bitmap := bitmap)
  {
  }

  lemma VersionCleared(row: Row)
    ensures Scanned(row - {Version}) == Scanned(row).(version := "")
  {
  }

  lemma ColumnOperation(c: Row, s: Row, op: Op)
    requires Eight(Scanned(c)) == Eight(Scanned(s)) && !op.SetDocument?
    ensures Answer(Upserted(Some(c), op)) == Answer(Rewritten(Some(s), op))
  {
    match op
    case SetVersion(version) =>
      VersionSet(c, version);
      VersionSet(s, version);
    case SetBitmap(bitmap) =>
      BitmapSet(c, bitmap);
      BitmapSet(s, bitmap);
    case DeleteVersion =>
      VersionCleared(c);
      VersionCleared(s);
    case Delete =>
  }

  lemma SetDocumentAnswers(c: Option<Row>, s: Option<Row>, rd: RootDoc)
    requires Answer(c) == Answer(s)
    ensures Answer(Upserted(c, SetDocument(rd))) == Answer(Rewritten(s, SetDocument(rd)))
            <==> !(c.None? && rd.bitmap < 0)
  {
    UpsertIsStoredRoot(c, rd);
    RewriteAnswers(s, rd);
    if c.Some? {
      MergeOfEight(Scanned(c.value), rd);
      MergeOfEight(Scanned(s.value), rd);
    }
  }

  lemma MergeOfEight(stored: RootDoc, rd: RootDoc)
    ensures Eight(StoredRoot(Some(stored), rd)) == Eight(Updated(Eight(stored), rd))
  {
  }

  function AfterUpserts(ops: seq<Op>): Option<Row> {
    if ops == [] then None else Upserted(AfterUpserts(ops[..|ops| - 1]), ops[|ops| - 1])
  }

  function AfterRewrites(ops: seq<Op>): Option<Row> {
    if ops == [] then None else Rewritten(AfterRewrites(ops[..|ops| - 1]), ops[|ops| - 1])
  }

  /** After any operations whose documents carry no negative bitmap, the two backends answer alike:
      the same not-found, or the same eight fields. */
  lemma {:induction false} BackendsAnswerAlike(ops: seq<Op>)
    requires forall i :: 0 <= i < |ops| && ops[i].SetDocument? ==> ops[i].rd.bitmap >= 0
    ensures Answer(AfterUpserts(ops)) == Answer(AfterRewrites(ops))
  {
    if ops != [] {
      BackendsAnswerAlike(ops[..|ops| - 1]);
      OneOperation(AfterUpserts(ops[..|ops| - 1]), AfterRewrites(ops[..|ops| - 1]), ops[|ops| - 1]);
    }
  }

  // ---------- the two tables ----------

  function RowAt(table: map<string, Row>, mac: string): Option<Row> {
    if mac in table then Some(table[mac]) else None
  }

  function With(table: map<string, Row>, mac: string, row: Option<Row>): map<string, Row> {
    if row.Some? then table[mac := row.value] else table - {mac}
  }

  class CassandraRoots {
    var table: map<string, Row>

    method GetRootDocument(mac: string) returns (r: Option<RootDoc>)
      ensures r == if RowAt(table, mac).None? then None else Some(Scanned(table[mac]))
    {
      if mac !in table {
        return None;
      }
      r := Some(Scanned(table[mac]));
    }

    method SetRootDocument(mac: string, rd: RootDoc)
      modifies this
      ensures table == With(old(table), mac, Upserted(RowAt(old(table), mac), SetDocument(rd)))
    {
      var columns := NonEmptyColumnMap(rd);
      table := table[mac := Columns(RowAt(table, mac)) + columns];
    }

    method SetRootDocumentVersion(mac: string, version: string)
      modifies this
      ensures table == With(old(table), mac, Upserted(RowAt(old(table), mac), SetVersion(version)))
    {
      table := table[mac := Columns(RowAt(table, mac))[Version := Text(version)]];
    }

    method SetRootDocumentBitmap(mac: string, bitmap: int)
      modifies this
      ensures table == With(old(table), mac, Upserted(RowAt(old(table), mac), SetBitmap(bitmap)))
    {
      table := table[mac := Columns(RowAt(table, mac))[Bitmap := Num(bitmap)]];
    }

    method DeleteRootDocumentVersion(mac: string)
      modifies this
      ensures table == With(old(table), mac, Upserted(RowAt(old(table), mac), DeleteVersion))
    {
      if mac in table {
        table := table[mac := table[mac] - {Version}];
      } else {
        assert table - {mac} == table;
      }
    }

    method DeleteRootDocument(mac: string)
      modifies this
      ensures table == With(old(table), mac, Upserted(RowAt(old(table), mac), Delete))
    {
      table := table - {mac};
    }
  }

  class SqliteRoots {
    var table: map<string, Row>

    method GetRootDocument(mac: string) returns (r: Option<RootDoc>)
      ensures r == Answer(RowAt(table, mac))
    {
      if mac !in table {
        return None;
      }
      r := Some(Eight(Scanned(table[mac])));
    }

    method SetRootDocument(mac: string, rd: RootDoc)
      modifies this
      ensures table == With(old(table), mac, Rewritten(RowAt(old(table), mac), SetDocument(rd)))
    {
      var stored := GetRootDocument(mac);
      if stored.None? {
        table := table[mac := EightColumns(rd)];
        return;
      }
      var rootdoc := new RootDocument(stored.value);
      var incoming := new RootDocument(rd);
      rootdoc.Update(incoming);
      table := table[mac := table[mac] + EightColumns(rootdoc.record)];
    }

    method SetRootDocumentVersion(mac: string, version: string)
      modifies this
      ensures table == With(old(table), mac, Rewritten(RowAt(old(table), mac), SetVersion(version)))
    {
      var stored := GetRootDocument(mac);
      if stored.None? {
        table := table[mac := map[Version := Text(version)]];
      } else {
        table := table[mac := table[mac][Version := Text(version)]];
      }
    }

    method SetRootDocumentBitmap(mac: string, bitmap: int)
      modifies this
      ensures table == With(old(table), mac, Rewritten(RowAt(old(table), mac), SetBitmap(bitmap)))
    {
      var stored := GetRootDocument(mac);
      if stored.None? {
        table := table[mac := map[Bitmap := Num(bitmap)]];
      } else {
        table := table[mac := table[mac][Bitmap := Num(bitmap)]];
      }
    }

    method DeleteRootDocumentVersion(mac: string)
      modifies this
      ensures table == With(old(table), mac, Rewritten(RowAt(old(table), mac), DeleteVersion))
    {
      var stored := GetRootDocument(mac);
      if stored.None? {
        assert table - {mac} == table;
        return;
      }
      table := table[mac := table[mac] - {Version}];
    }

    method DeleteRootDocument(mac: string)
      modifies this
      ensures table == With(old(table), mac, Rewritten(RowAt(old(table), mac), Delete))
    {
      table := table - {mac};
    }
  }
}
