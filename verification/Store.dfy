/** db/cassandra/document.go and db/cassandra/root_document.go: the tables, their upserts and the
    view a read gives of them. */
module Store {
  import opened Common
  import opened RootDocuments
  import opened Bitmaps
  import opened Documents
  import opened Metrics

  // ---------- rows ----------

  function RowOf(rows: Rows, id: string): SubDocument {
    if id in rows then rows[id] else NO_COLUMNS
  }

  function Column<T>(stored: Option<T>, written: Option<T>): Option<T> {
    if written.Some? then written else stored
  }

  /** The columns a record carries replace the stored ones; an absent column keeps what it had. */
  function Upsert(row: SubDocument, d: SubDocument): SubDocument {
    SubDocument(
      if d.payload != [] then d.payload else row.payload,
      Column(row.version, d.version),
      Column(row.state, d.state),
      Column(row.updatedTime, d.updatedTime),
      Column(row.errorCode, d.errorCode),
      Column(row.errorDetails, d.errorDetails),
      Column(row.expiry, d.expiry))
  }

  /** One upsert per key of writes. The keys are distinct, so their order does not show. */
  function WriteAll(rows: Rows, writes: Rows): Rows {
    map id | id in rows.Keys + writes.Keys :: if id in writes then Upsert(RowOf(rows, id), writes[id]) else rows[id]
  }

  /** One more key done: the order in which the keys of writes are visited leaves no trace. */
  lemma WriteAllStep(rows: Rows, writes: Rows, todo: set<string>, id: string)
    requires id in todo
    ensures id in writes ==>
              && RowOf(WriteAll(rows, writes - todo), id) == RowOf(rows, id)
              && WriteAll(rows, writes - todo)[id := Upsert(RowOf(rows, id), writes[id])]
                  == WriteAll(rows, writes - (todo - {id}))
    ensures id !in writes ==> writes - todo == writes - (todo - {id})
  {
  }

  /** Before the first key and after the last. */
  lemma WriteAllEnds(rows: Rows, writes: Rows, keys: set<string>)
    requires writes.Keys <= keys
    ensures WriteAll(rows, writes - keys) == rows
    ensures writes - keys == map[]
    ensures writes - {} == writes
  {
  }

  /** An upsert is refused when it carries a negative time. */
  predicate TimesAccepted(d: SubDocument) {
    !(d.updatedTime.Some? && d.updatedTime.value < 0) && !(d.expiry.Some? && d.expiry.value < 0)
  }

  function ColumnsCleared(row: SubDocument, expiry: bool, errorCode: bool, errorDetails: bool): SubDocument {
    row.(expiry := if expiry then None else row.expiry,
         errorCode := if errorCode then None else row.errorCode,
         errorDetails := if errorDetails then None else row.errorDetails)
  }

  predicate Expired(row: SubDocument, now: int) {
    row.expiry.Some? && 0 < row.expiry.value < now
  }

  /** A read gives pointers to zero values for absent version, state and error columns, and no
      pointer for a time that is not positive. */
  function View(row: SubDocument): SubDocument {
    SubDocument(
      row.payload,
      Some(row.version.GetOr("")),
      Some(row.state.GetOr(0)),
      if row.updatedTime.GetOr(0) > 0 then row.updatedTime else None,
      Some(row.errorCode.GetOr(0)),
      Some(row.errorDetails.GetOr("")),
      if row.expiry.GetOr(0) > 0 then row.expiry else None)
  }

  predicate Visible(row: SubDocument, includeExpired: bool, now: int) {
    row.payload != [] && (includeExpired || !Expired(row, now))
  }

  function ReadDocument(rows: Rows, includeExpired: bool, now: int): Rows {
    map id | id in rows && Visible(rows[id], includeExpired, now) :: View(rows[id])
  }

  // ---------- root documents ----------

  /** SetRootDocument: the non-empty columns of rd over the stored ones. */
  function StoredRoot(root: Option<RootDoc>, rd: RootDoc): RootDoc {
    var merged := Updated(root.GetOr(NO_ROOT), rd);
    if rd.lockedTill > 0 then merged.(lockedTill := rd.lockedTill) else merged
  }

  function WithVersion(root: Option<RootDoc>, version: string): RootDoc {
    root.GetOr(NO_ROOT).(version := version)
  }

  /** Deleting the version column leaves the other columns, and creates no row. */
  function WithoutVersion(root: Option<RootDoc>): Option<RootDoc> {
    if root.None? then None else Some(root.value.(version := ""))
  }

  // ---------- one device ----------

  datatype Device = Device(rows: Rows, root: Option<RootDoc>)

  const NO_DEVICE := Device(map[], None)

  function DeviceOf(devices: map<string, Device>, mac: string): Device {
    if mac in devices then devices[mac] else NO_DEVICE
  }

  function RowWritten(dev: Device, id: string, d: SubDocument): Device {
    dev.(rows := dev.rows[id := Upsert(RowOf(dev.rows, id), d)])
  }

  // ---------- references ----------

  /** GetRefId: a payload of four zero bytes followed by at least one byte names a reference. */
  function RefId(payload: Bytes): Option<Bytes> {
    if |payload| > 4 && payload[..4] == [0, 0, 0, 0] then Some(payload[4..]) else None
  }

  /** The payload a reference resolves to; an empty stored payload counts as not found. */
  function Referenced(refs: map<Bytes, Bytes>, refId: Bytes): Option<Bytes> {
    if refId in refs && refs[refId] != [] then Some(refs[refId]) else None
  }

  // ---------- states and counters ----------

  function StateOf(rows: Rows, id: string): int {
    RowOf(rows, id).GetState()
  }

  function InState(rows: Rows, s: int): set<string> {
    set id | id in rows && rows[id].GetState() == s
  }

  lemma CountWithout(ids: set<string>, id: string)
    ensures |ids| == |ids - {id}| + Indicator(id in ids)
  {
    if id in ids {
      assert ids == ids - {id} + {id};
    } else {
      assert ids == ids - {id};
    }
  }

  /** Writing one row moves the number of rows in state s as a state counter should move. */
  lemma WriteMovesCount(rows: Rows, id: string, row: SubDocument, s: int)
    requires IsState(s)
    ensures |InState(rows[id := row], s)| == |InState(rows, s)| + NetChange(StateOf(rows, id), row.GetState(), s)
  {
    var before, after := InState(rows, s), InState(rows[id := row], s);
    OthersKeepState(rows, id, row, s);
    CountWithout(before, id);
    CountWithout(after, id);
    assert id in before <==> StateOf(rows, id) == s;
    assert id in after <==> row.GetState() == s;
  }

  lemma OthersKeepState(rows: Rows, id: string, row: SubDocument, s: int)
    ensures InState(rows, s) - {id} == InState(rows[id := row], s) - {id}
  {
  }

  /** Outside the four states a state counts for nothing. */
  function Clip(state: int): int {
    if IsState(state) then state else 0
  }

  /** Passing old state oldState keeps counters and rows together exactly when it is the row's own,
      up to values that are none of the four states. */
  lemma TrueOldStateNeeded(rows: Rows, id: string, row: SubDocument, oldState: int)
    ensures (forall s :: IsState(s) ==>
               |InState(rows[id := row], s)| - |InState(rows, s)| == NetChange(oldState, row.GetState(), s))
            <==> Clip(oldState) == Clip(StateOf(rows, id))
  {
    forall s | IsState(s)
      ensures |InState(rows[id := row], s)| - |InState(rows, s)| == NetChange(StateOf(rows, id), row.GetState(), s) {
      WriteMovesCount(rows, id, row, s);
    }
    var t, n := StateOf(rows, id), row.GetState();
    if Clip(oldState) != Clip(t) {
      var s := if IsState(oldState) && oldState != n then oldState else if IsState(t) && t != n then t else n;
      assert NetChange(oldState, n, s) != NetChange(t, n, s);
    }
  }

  /** A state write that passes the row's own old state moves counters and rows alike. */
  lemma CountersFollowRow(c: Counters, rows: Rows, id: string, row: SubDocument, oldState: int, labels: Labels, s: int)
    requires IsState(s) && Clip(oldState) == Clip(StateOf(rows, id))
    ensures Net(Recorded(c, oldState, row.GetState(), labels), s) - |InState(rows[id := row], s)|
         == Net(c, s) - |InState(rows, s)|
  {
    RecordedNet(c, oldState, row.GetState(), labels, s);
    WriteMovesCount(rows, id, row, s);
  }

  /** The distance between the counters of state s and the rows of one device in that state. */
  ghost function Drift(devices: map<string, Device>, counts: Counters, mac: string, s: int): int {
    Net(counts, s) - |InState(DeviceOf(devices, mac).rows, s)|
  }

  /** From one moment to the next, counters and rows of this device moved together. */
  ghost predicate SameDrift(devices: map<string, Device>, counts: Counters, devices': map<string, Device>,
                            counts': Counters, mac: string) {
    forall s :: IsState(s) ==> Drift(devices', counts', mac, s) == Drift(devices, counts, mac, s)
  }

  /** The other devices are as they were. */
  ghost predicate OnlyChanged(devices: map<string, Device>, devices': map<string, Device>, mac: string) {
    forall m :: m != mac ==> DeviceOf(devices', m) == DeviceOf(devices, m)
  }

  /** A write passed one old state while the row had another; the drift shifts between the two. */
  ghost predicate DriftShifts(devices: map<string, Device>, counts: Counters, devices': map<string, Device>,
                              counts': Counters, mac: string, stored: int, passed: int) {
    forall s :: IsState(s) ==>
      Drift(devices', counts', mac, s)
      == Drift(devices, counts, mac, s) + Indicator(stored == s) - Indicator(passed == s)
  }

  /** How far counters and rows come apart in one write, for every old state passed. */
  lemma WriteShiftsDrift(devices: map<string, Device>, counts: Counters, mac: string, id: string, d: SubDocument,
                         oldState: int, labels: Labels)
    requires d.state.Some?
    ensures DriftShifts(devices, counts, devices[mac := RowWritten(DeviceOf(devices, mac), id, d)],
                        Recorded(counts, oldState, d.state.value, labels), mac,
                        StateOf(DeviceOf(devices, mac).rows, id), oldState)
  {
    var rows := DeviceOf(devices, mac).rows;
    var devices' := devices[mac := RowWritten(DeviceOf(devices, mac), id, d)];
    var counts' := Recorded(counts, oldState, d.state.value, labels);
    forall s | IsState(s)
      ensures Drift(devices', counts', mac, s)
           == Drift(devices, counts, mac, s) + Indicator(StateOf(rows, id) == s) - Indicator(oldState == s)
    {
      RecordedNet(counts, oldState, d.state.value, labels, s);
      WriteMovesCount(rows, id, Upsert(RowOf(rows, id), d), s);
    }
  }

  /** The drift stays exactly when the two agree, up to values that are none of the four states. */
  lemma NoShiftExactly(devices: map<string, Device>, counts: Counters, devices': map<string, Device>,
                       counts': Counters, mac: string, stored: int, passed: int)
    requires DriftShifts(devices, counts, devices', counts', mac, stored, passed)
    ensures SameDrift(devices, counts, devices', counts', mac) <==> Clip(passed) == Clip(stored)
  {
    if Clip(passed) != Clip(stored) {
      var s := if IsState(stored) then stored else passed;
      assert Drift(devices', counts', mac, s) != Drift(devices, counts, mac, s);
    }
  }

  /** A change that moves no row from one state to another leaves the drift alone. */
  lemma SameStatesSameDrift(devices: map<string, Device>, counts: Counters, devices': map<string, Device>, mac: string)
    requires forall id :: StateOf(DeviceOf(devices', mac).rows, id) == StateOf(DeviceOf(devices, mac).rows, id)
    ensures SameDrift(devices, counts, devices', counts, mac)
  {
    var rows, rows' := DeviceOf(devices, mac).rows, DeviceOf(devices', mac).rows;
    forall s | IsState(s) ensures InState(rows, s) == InState(rows', s) {
      forall id ensures id in InState(rows, s) <==> id in InState(rows', s) {
        assert StateOf(rows', id) == StateOf(rows, id);
      }
    }
  }

  /** The write of a partial record keeps counters and rows of the device together exactly when it passes
      the state of the row. */
  lemma DriftKeptExactly(devices: map<string, Device>, counts: Counters, mac: string, id: string, d: SubDocument,
                         oldState: int, labels: Labels)
    requires d.state.Some?
    ensures SameDrift(devices, counts, devices[mac := RowWritten(DeviceOf(devices, mac), id, d)],
                      Recorded(counts, oldState, d.state.value, labels), mac)
            <==> Clip(oldState) == Clip(StateOf(DeviceOf(devices, mac).rows, id))
  {
    WriteShiftsDrift(devices, counts, mac, id, d, oldState, labels);
    NoShiftExactly(devices, counts, devices[mac := RowWritten(DeviceOf(devices, mac), id, d)],
                   Recorded(counts, oldState, d.state.value, labels), mac,
                   StateOf(DeviceOf(devices, mac).rows, id), oldState);
  }

  /** The feature switches and configured lists of the service. murmur is its 32-bit hash. */
  datatype Config = Config(
    murmur: string -> string,
    indexes: map<string, int>,
    blockedIds: seq<string>,
    exemptIds: seq<string>,
    filterByBitmap: bool,
    stateCorrection: bool,
    lockRootDocument: bool,
    upstream: bool,
    precook: bool,
    precookTtlDays: int,
    metrics: bool)
  {
    ghost predicate Valid() {
      IndexesValid(indexes)
    }
  }

  /** The store: every device's rows and root document, the reference table, and the metrics that
      its state writes update. */
  class DatabaseClient {
    var devices: map<string, Device>
    var refs: map<Bytes, Bytes>
    const metrics: AppMetrics
    const cfg: Config

    constructor (cfg: Config)
      ensures devices == map[] && refs == map[] && this.cfg == cfg
      ensures fresh(metrics) && metrics.counts == NO_COUNTS
    {
      this.devices := map[];
      this.refs := map[];
      this.cfg := cfg;
      this.metrics := new AppMetrics();
    }

    function Dev(mac: string): Device
      reads this`devices
    {
      DeviceOf(devices, mac)
    }

    /** The column list an upsert builds, laid over the stored row; refused on a negative time. */
    static method WriteColumns(row: SubDocument, d: SubDocument) returns (ok: bool, columns: SubDocument)
      ensures ok == TimesAccepted(d)
      ensures ok ==> columns == Upsert(row, d)
    {
      columns := row;
      if |d.payload| > 0 {
        columns := columns.(payload := d.payload);
      }
      if d.version.Some? {
        columns := columns.(version := d.version);
      }
      if d.state.Some? {
        columns := columns.(state := d.state);
      }
      if d.updatedTime.Some? {
        if d.updatedTime.value < 0 {
          return false, columns;
        }
        columns := columns.(updatedTime := d.updatedTime);
      }
      if d.errorCode.Some? {
        columns := columns.(errorCode := d.errorCode);
      }
      if d.errorDetails.Some? {
        columns := columns.(errorDetails := d.errorDetails);
      }
      if d.expiry.Some? {
        if d.expiry.value < 0 {
          return false, columns;
        }
        columns := columns.(expiry := d.expiry);
      }
      ok := true;
    }

    method SetSubDocument(mac: string, id: string, d: SubDocument, oldState: int, labels: Labels) returns (ok: bool)
      modifies this`devices, metrics
      ensures ok == TimesAccepted(d)
      ensures !ok ==> devices == old(devices) && metrics.counts == old(metrics.counts)
      ensures ok ==> devices == old(devices)[mac := RowWritten(old(Dev(mac)), id, d)]
      ensures ok ==> metrics.counts == if cfg.metrics && d.state.Some?
                                       then Recorded(old(metrics.counts), oldState, d.state.value,
                                                     labels.(feature := id))
                                       else old(metrics.counts)
      ensures ok && cfg.metrics && d.state.Some? ==>
                (SameDrift(old(devices), old(metrics.counts), devices, metrics.counts, mac)
                 <==> Clip(oldState) == Clip(StateOf(old(Dev(mac)).rows, id)))
      ensures ok && cfg.metrics && d.state.Some? ==>
                DriftShifts(old(devices), old(metrics.counts), devices, metrics.counts, mac,
                            StateOf(old(Dev(mac)).rows, id), oldState)
      ensures ok && d.state.None? ==> SameDrift(old(devices), old(metrics.counts), devices, metrics.counts, mac)
    {
      var dev := Dev(mac);
      var accepted, columns := WriteColumns(RowOf(dev.rows, id), d);
      if !accepted {
        return false;
      }
      devices := devices[mac := dev.(rows := dev.rows[id := columns])];
      if cfg.metrics {
        if d.state.Some? {
          metrics.UpdateStateMetrics(oldState, d.state.value, labels.(feature := id));
          DriftKeptExactly(old(devices), old(metrics.counts), mac, id, d, oldState, labels.(feature := id));
          WriteShiftsDrift(old(devices), old(metrics.counts), mac, id, d, oldState, labels.(feature := id));
        }
      }
      if d.state.None? {
        SameStatesSameDrift(old(devices), old(metrics.counts), devices, mac);
      }
      ok := true;
    }

    method DeleteSubDocument(mac: string, id: string)
      modifies this`devices
      ensures devices == old(devices)[mac := old(Dev(mac)).(rows := old(Dev(mac)).rows - {id})]
    {
      devices := devices[mac := Dev(mac).(rows := Dev(mac).rows - {id})];
    }

    /** Clears the named columns of a stored row. */
    method DeleteSubDocumentColumns(mac: string, id: string, expiry: bool, errorCode: bool, errorDetails: bool)
      modifies this`devices
      ensures id !in old(Dev(mac)).rows ==> devices == old(devices)
      ensures id in old(Dev(mac)).rows ==>
                devices == old(devices)[mac := old(Dev(mac)).(
                  rows := old(Dev(mac)).rows[
                    id := ColumnsCleared(old(Dev(mac)).rows[id], expiry, errorCode, errorDetails)])]
    {
      var dev := Dev(mac);
      if id in dev.rows {
        var cleared := ColumnsCleared(dev.rows[id], expiry, errorCode, errorDetails);
        devices := devices[mac := dev.(rows := dev.rows[id := cleared])];
      }
    }

    method DeleteDocument(mac: string)
      modifies this`devices
      ensures devices == old(devices)[mac := old(Dev(mac)).(rows := map[])]
    {
      devices := devices[mac := Dev(mac).(rows := map[])];
    }

    /** The row as a read shows it, with a reference replaced by what it names when that is found;
        an expired row is still returned. None when the row is absent or has no payload. */
    method GetSubDocument(mac: string, id: string) returns (r: Option<SubDocument>)
      ensures r == SubDocumentRead(Dev(mac).rows, refs, id)
    {
      var rows := Dev(mac).rows;
      if id !in rows || rows[id].payload == [] {
        return None;
      }
      var subdoc := View(rows[id]);
      var refId := RefId(subdoc.payload);
      if refId.Some? {
        var resolved := Referenced(refs, refId.value);
        if resolved.Some? {
          subdoc := subdoc.(payload := resolved.value);
        }
      }
      r := Some(subdoc);
    }

    /** The visible rows, scanned in any order. An empty document is the store's not-found. */
    method GetDocument(mac: string, includeExpired: bool, now: int) returns (doc: Document)
      ensures fresh(doc)
      ensures doc.rootDocument == None && doc.docmap == ReadDocument(Dev(mac).rows, includeExpired, now)
    {
      var rows := Dev(mac).rows;
      doc := new Document(None);
      var todo := rows.Keys;
      while todo != {}
        invariant todo <= rows.Keys
        invariant doc.rootDocument == None
        invariant doc.docmap == map id | id in rows && id !in todo
                  && Visible(rows[id], includeExpired, now) :: View(rows[id])
        decreases todo
      {
        var id :| id in todo;
        var row := rows[id];
        if |row.payload| > 0 {
          if includeExpired || !Expired(row, now) {
            doc.SetSubDocument(id, View(row));
          }
        }
        todo := todo - {id};
      }
    }

    method GetRootDocument(mac: string) returns (r: Option<RootDoc>)
      ensures r == Dev(mac).root
    {
      r := Dev(mac).root;
    }

    method SetRootDocument(mac: string, rd: RootDoc)
      modifies this`devices
      ensures devices == old(devices)[mac := old(Dev(mac)).(root := Some(StoredRoot(old(Dev(mac)).root, rd)))]
    {
      devices := devices[mac := Dev(mac).(root := Some(StoredRoot(Dev(mac).root, rd)))];
    }

    method SetRootDocumentVersion(mac: string, version: string)
      modifies this`devices
      ensures devices == old(devices)[mac := old(Dev(mac)).(root := Some(WithVersion(old(Dev(mac)).root, version)))]
    {
      devices := devices[mac := Dev(mac).(root := Some(WithVersion(Dev(mac).root, version)))];
    }

    method DeleteRootDocumentVersion(mac: string)
      modifies this`devices
      ensures devices == old(devices)[mac := old(Dev(mac)).(root := WithoutVersion(old(Dev(mac)).root))]
    {
      devices := devices[mac := Dev(mac).(root := WithoutVersion(Dev(mac).root))];
    }

    method GetRootDocumentLabels(mac: string) returns (labels: Labels)
    {
      var root := Dev(mac).root;
      if root.None? {
        return Labels("unknown", "unknown", "default", "unknown");
      }
      return Labels(root.value.modelName, root.value.firmwareVersion, "default", "unknown");
    }
  }

  function SubDocumentRead(rows: Rows, refs: map<Bytes, Bytes>, id: string): Option<SubDocument> {
    if id !in rows || rows[id].payload == [] then None
    else
      var subdoc := View(rows[id]);
      var refId := RefId(subdoc.payload);
      if refId.Some? && Referenced(refs, refId.value).Some? then
        Some(subdoc.(payload := Referenced(refs, refId.value).value))
      else Some(subdoc)
  }
}
