/** The state counters telescope: over any sequence of state writes that pass each row's own old
    state, increments minus decrements equals the change in the number of rows, state by state. */
module StateCounters {
  import opened Common
  import opened Metrics
  import opened Store
  import opened CounterDrift
  import opened RootDocuments
  import opened Documents
  import opened Steps
  import opened Deliveries
  import opened Upstream
  import Machine

  /** The number of rows in state s over all devices. */
  ghost function Total(devices: map<string, Device>, s: int): int
    decreases devices
  {
    if devices == map[] then 0
    else
      var mac :| mac in devices;
      |InState(devices[mac].rows, s)| + Total(devices - {mac}, s)
  }

  lemma {:induction false} TotalWithout(devices: map<string, Device>, s: int, mac: string)
    requires mac in devices
    ensures Total(devices, s) == |InState(devices[mac].rows, s)| + Total(devices - {mac}, s)
    decreases devices
  {
    var m :| m in devices && Total(devices, s) == |InState(devices[m].rows, s)| + Total(devices - {m}, s);
    if m != mac {
      TotalWithout(devices - {m}, s, mac);
      TotalWithout(devices - {mac}, s, m);
      assert devices - {m} - {mac} == devices - {mac} - {m};
    }
  }

  lemma TotalSet(devices: map<string, Device>, s: int, mac: string, dev: Device)
    ensures Total(devices[mac := dev], s)
         == Total(devices, s) - |InState(DeviceOf(devices, mac).rows, s)| + |InState(dev.rows, s)|
  {
    var after := devices[mac := dev];
    TotalWithout(after, s, mac);
    assert after - {mac} == devices - {mac};
    if mac in devices {
      TotalWithout(devices, s, mac);
    } else {
      assert devices - {mac} == devices;
      assert InState(map[], s) == {};
    }
  }

  /** One call of SetSubDocument with a state. */
  datatype Write = Write(mac: string, id: string, d: SubDocument, oldState: int, labels: Labels)

  ghost predicate Writes(devices: seq<map<string, Device>>, counts: seq<Counters>, writes: seq<Write>) {
    && |devices| == |counts| == |writes| + 1
    && forall i :: 0 <= i < |writes| ==> Written(devices[i], counts[i], writes[i], devices[i + 1], counts[i + 1])
  }

  ghost predicate Written(devices: map<string, Device>, counts: Counters, w: Write, devices': map<string, Device>,
                          counts': Counters) {
    && w.d.state.Some?
    && devices' == devices[w.mac := RowWritten(DeviceOf(devices, w.mac), w.id, w.d)]
    && counts' == Recorded(counts, w.oldState, w.d.state.value, w.labels)
  }

  predicate PassesTrueState(devices: map<string, Device>, w: Write) {
    Clip(w.oldState) == Clip(StateOf(DeviceOf(devices, w.mac).rows, w.id))
  }

  lemma OneWrite(devices: map<string, Device>, counts: Counters, w: Write, devices': map<string, Device>,
                 counts': Counters, s: int)
    requires Written(devices, counts, w, devices', counts') && PassesTrueState(devices, w) && IsState(s)
    ensures Net(counts', s) - Total(devices', s) == Net(counts, s) - Total(devices, s)
  {
    var rows := DeviceOf(devices, w.mac).rows;
    var row := Upsert(RowOf(rows, w.id), w.d);
    CountersFollowRow(counts, rows, w.id, row, w.oldState, w.labels, s);
    TotalSet(devices, s, w.mac, RowWritten(DeviceOf(devices, w.mac), w.id, w.d));
  }

  /** Conservation over a whole sequence of writes, any devices and any labels. */
  lemma {:induction false} CountersTelescope(devices: seq<map<string, Device>>, counts: seq<Counters>,
                                             writes: seq<Write>, s: int, i: nat)
    requires Writes(devices, counts, writes) && IsState(s) && i < |devices|
    requires forall k :: 0 <= k < |writes| ==> PassesTrueState(devices[k], writes[k])
    ensures Net(counts[i], s) - Net(counts[0], s) == Total(devices[i], s) - Total(devices[0], s)
  {
    if i > 0 {
      CountersTelescope(devices, counts, writes, s, i - 1);
      OneWrite(devices[i - 1], counts[i - 1], writes[i - 1], devices[i], counts[i], s);
    }
  }

  // ---------- from one device to the whole store ----------

  /** Counters and rows of all devices moved together. */
  ghost predicate SameBalance(devices: map<string, Device>, counts: Counters, devices': map<string, Device>,
                              counts': Counters) {
    forall s :: IsState(s) ==> Net(counts', s) - Total(devices', s) == Net(counts, s) - Total(devices, s)
  }

  /** A device without rows counts for nothing, stored or not. */
  lemma TotalOfRest(devices: map<string, Device>, s: int, mac: string)
    ensures Total(devices, s) == |InState(DeviceOf(devices, mac).rows, s)| + Total(devices - {mac}, s)
  {
    if mac in devices {
      TotalWithout(devices, s, mac);
    } else {
      assert devices - {mac} == devices;
      assert InState(map[], s) == {};
    }
  }

  lemma {:induction false} TotalOfDevices(devices: map<string, Device>, devices': map<string, Device>, s: int)
    requires forall mac :: DeviceOf(devices', mac).rows == DeviceOf(devices, mac).rows
    ensures Total(devices', s) == Total(devices, s)
    decreases devices.Keys + devices'.Keys
  {
    if devices.Keys + devices'.Keys != {} {
      var mac :| mac in devices.Keys + devices'.Keys;
      TotalOfRest(devices, s, mac);
      TotalOfRest(devices', s, mac);
      forall m ensures DeviceOf(devices' - {mac}, m).rows == DeviceOf(devices - {mac}, m).rows {
        assert DeviceOf(devices', m).rows == DeviceOf(devices, m).rows;
      }
      TotalOfDevices(devices - {mac}, devices' - {mac}, s);
    } else {
      assert devices == map[] && devices' == map[];
    }
  }

  /** Where only one device changes, the balance of the store moves as the drift of that device. */
  lemma BalanceFollowsDrift(devices: map<string, Device>, counts: Counters, devices': map<string, Device>,
                            counts': Counters, mac: string, s: int)
    requires OnlyChanged(devices, devices', mac)
    ensures Net(counts', s) - Total(devices', s) - (Net(counts, s) - Total(devices, s))
         == Drift(devices', counts', mac, s) - Drift(devices, counts, mac, s)
  {
    TotalOfDevices(devices[mac := DeviceOf(devices', mac)], devices', s);
    TotalSet(devices, s, mac, DeviceOf(devices', mac));
  }

  /** A handler that leaves the other devices alone keeps counters and rows together over the whole store
      exactly when it keeps them together on its device. */
  lemma OneDeviceKeepsBalance(devices: map<string, Device>, counts: Counters, devices': map<string, Device>,
                              counts': Counters, mac: string)
    requires OnlyChanged(devices, devices', mac)
    ensures SameBalance(devices, counts, devices', counts') <==> SameDrift(devices, counts, devices', counts', mac)
  {
    forall s
      ensures Net(counts', s) - Total(devices', s) == Net(counts, s) - Total(devices, s)
              <==> Drift(devices', counts', mac, s) == Drift(devices, counts, mac, s)
    {
      BalanceFollowsDrift(devices, counts, devices', counts', mac, s);
    }
  }

  // ---------- config requests ----------

  /** The rows a request finds when it writes states: only a correction came between. */
  lemma CorrectedStates(cfg: Config, dev: Device, req: GetRequest, dv: Versions, now: int, id: string)
    ensures
      var rows := BuiltDevice(cfg, dev, req, dv, now).rows;
      StateOf(rows, id) == StateOf(dev.rows, id) || StateOf(rows, id) == DEPLOYED
  {
  }

  /** What the document of a request shows of a row is the row before any correction. */
  lemma BuiltDocShowsStates(cfg: Config, dev: Device, req: GetRequest, dv: Versions, now: int, id: string)
    requires id in BuiltDocument(cfg, dev, req, dv, now).doc
    ensures BuiltDocument(cfg, dev, req, dv, now).doc[id].GetState() == StateOf(dev.rows, id)
  {
  }

  /** Every state write of a request passes the state its row has, and it deletes no row in a state. */
  ghost predicate GetIsTruthful(cfg: Config, refs: map<Bytes, Bytes>, dev: Device, req: GetRequest, dv: Versions,
                                reply: UpstreamReply, now: int)
    requires cfg.Valid()
  {
    Truthful(GetStateWrites(cfg, refs, dev, req, dv, reply, now), RowsBeforeStateWrites(cfg, dev, req, dv, now))
  }

  /** A request passes a wrong state only for a row it does not see or has corrected. */
  lemma GetIsOneWay(cfg: Config, refs: map<Bytes, Bytes>, dev: Device, req: GetRequest, dv: Versions,
                    reply: UpstreamReply, now: nat)
    requires cfg.Valid()
    ensures OneWay(GetStateWrites(cfg, refs, dev, req, dv, reply, now), RowsBeforeStateWrites(cfg, dev, req, dv, now))
    ensures !req.FactoryReset() ==>
              RowsBeforeStateWrites(cfg, dev, req, dv, now) == BuiltDocument(cfg, dev, req, dv, now).dev.rows
  {
    if req.FactoryReset() {
      ResetIsOneWay(cfg, dev, reply, now);
    } else {
      Machine.BuiltDocumentDevice(cfg, dev, req, dv, now);
      ConfigIsOneWay(cfg, refs, dev, req, dv, reply, now);
    }
  }

  lemma ConfigIsOneWay(cfg: Config, refs: map<Bytes, Bytes>, dev: Device, req: GetRequest, dv: Versions,
                    reply: UpstreamReply, now: int)
    requires cfg.Valid() && !req.FactoryReset()
    ensures OneWay(GetStateWrites(cfg, refs, dev, req, dv, reply, now), BuiltDevice(cfg, dev, req, dv, now).rows)
  {
    var w := GetStateWrites(cfg, refs, dev, req, dv, reply, now);
    var rows := BuiltDevice(cfg, dev, req, dv, now).rows;
    forall id | id in w.ids
      ensures || Clip(StateOf(w.shown, id)) == Clip(StateOf(rows, id))
              || Clip(StateOf(w.shown, id)) == 0
              || StateOf(rows, id) == DEPLOYED
    {
      CorrectedStates(cfg, dev, req, dv, now, id);
      if id in w.shown {
        ShownIsBuilt(cfg, refs, dev, req, dv, reply, now, id);
        BuiltDocShowsStates(cfg, dev, req, dv, now, id);
      }
    }
  }

  lemma ShownIsBuilt(cfg: Config, refs: map<Bytes, Bytes>, dev: Device, req: GetRequest, dv: Versions,
                     reply: UpstreamReply, now: int, id: string)
    requires cfg.Valid() && !req.FactoryReset()
    requires id in GetStateWrites(cfg, refs, dev, req, dv, reply, now).shown
    ensures
      var built := BuiltDocument(cfg, dev, req, dv, now);
      && id in built.doc
      && GetStateWrites(cfg, refs, dev, req, dv, reply, now).shown[id].GetState() == built.doc[id].GetState()
  {
  }

  lemma ResetIsOneWay(cfg: Config, dev: Device, reply: UpstreamReply, now: int)
    ensures OneWay(ResetStateWrites(cfg, dev, reply, now), dev.rows)
  {
  }

  // ---------- what truthful means, request by request ----------

  /** A pending or failed row that the device names as applied, wanted by a request of changed metadata:
      correction deploys it, and the response, built from the stale read, puts it back in deployment. */
  ghost predicate CorrectionUndone(cfg: Config, refs: map<Bytes, Bytes>, dev: Device, req: GetRequest, dv: Versions,
                                   now: int, id: string)
    requires cfg.Valid()
  {
    && cfg.stateCorrection && !req.mget && !LockedOut(cfg, dev, req, now) && Comparison(dev, req, dv).MetaChanged?
    && Wanted(cfg, refs, dev, req, dv, now, id)
    && dev.rows[id].GetVersion() != "" && dev.rows[id].GetVersion() == Lookup(dv, id, "")
    && dev.rows[id].GetState() in {PENDING_DOWNLOAD, FAILURE}
  }

  /** The same, read off the state writes. */
  lemma UndoneAsWritten(cfg: Config, refs: map<Bytes, Bytes>, dev: Device, req: GetRequest, dv: Versions, now: nat,
                        id: string)
    requires cfg.Valid()
    ensures
      var built := BuiltDocument(cfg, dev, req, dv, now);
      CorrectionUndone(cfg, refs, dev, req, dv, now, id) <==>
        && cfg.stateCorrection && id in StateWritesWithoutUpstream(cfg, refs, built, req.mget, now).ids
        && id in dev.rows && NeedsCorrection(View(dev.rows[id]), id, dv)
  {
    if CorrectionUndone(cfg, refs, dev, req, dv, now, id) {
      UndoneIsWritten(cfg, refs, dev, req, dv, now, id);
    } else if id in StateWritesWithoutUpstream(cfg, refs, BuiltDocument(cfg, dev, req, dv, now), req.mget, now).ids {
      WantedAreDelivered(cfg, refs, dev, req, dv, now, id);
      BuiltOutcome(cfg, dev, req, dv, now);
    }
  }

  lemma UndoneIsWritten(cfg: Config, refs: map<Bytes, Bytes>, dev: Device, req: GetRequest, dv: Versions, now: nat,
                        id: string)
    requires cfg.Valid() && CorrectionUndone(cfg, refs, dev, req, dv, now, id)
    ensures
      var built := BuiltDocument(cfg, dev, req, dv, now);
      id in StateWritesWithoutUpstream(cfg, refs, built, req.mget, now).ids
  {
    WantedMakesNoError(cfg, refs, dev, req, dv, now, id);
    WantedAreDelivered(cfg, refs, dev, req, dv, now, id);
  }

  lemma CorrectedState(cfg: Config, rows: Rows, dv: Versions, now: nat, id: string)
    ensures StateOf(BuiltRows(cfg, rows, dv, now), id)
         == if cfg.stateCorrection && id in rows && Visible(rows[id], false, now)
               && NeedsCorrection(View(rows[id]), id, dv)
            then DEPLOYED
            else StateOf(rows, id)
  {
  }

  /** And off the device: a row that was not deployed, that correction deploys, and that the request leaves in
      deployment. */
  lemma UndoneExactly(cfg: Config, refs: map<Bytes, Bytes>, dev: Device, req: GetRequest, dv: Versions,
                      reply: UpstreamReply, now: nat, id: string)
    requires cfg.Valid() && !cfg.upstream && !req.FactoryReset()
    ensures CorrectionUndone(cfg, refs, dev, req, dv, now, id) <==>
              && StateOf(dev.rows, id) != DEPLOYED
              && StateOf(BuiltRows(cfg, dev.rows, dv, now), id) == DEPLOYED
              && StateOf(Got(cfg, refs, dev, req, dv, reply, now).0.rows, id) == IN_DEPLOYMENT
  {
    CorrectedState(cfg, dev.rows, dv, now, id);
    StateAfterGet(cfg, refs, dev, req, dv, reply, now, id);
    UndoneByRow(cfg, refs, dev, req, dv, now, id);
  }

  lemma UndoneByRow(cfg: Config, refs: map<Bytes, Bytes>, dev: Device, req: GetRequest, dv: Versions, now: nat,
                    id: string)
    requires cfg.Valid()
    ensures CorrectionUndone(cfg, refs, dev, req, dv, now, id) <==>
              && Wanted(cfg, refs, dev, req, dv, now, id) && !LockedOut(cfg, dev, req, now) && !req.mget
              && cfg.stateCorrection && NeedsCorrection(View(dev.rows[id]), id, dv)
              && !Delivering(dev.rows[id].GetState())
  {
  }

  lemma StateAfterGet(cfg: Config, refs: map<Bytes, Bytes>, dev: Device, req: GetRequest, dv: Versions,
                      reply: UpstreamReply, now: nat, id: string)
    requires cfg.Valid() && !cfg.upstream && !req.FactoryReset()
    ensures StateOf(Got(cfg, refs, dev, req, dv, reply, now).0.rows, id)
         == if Wanted(cfg, refs, dev, req, dv, now, id) && !LockedOut(cfg, dev, req, now) && !req.mget
               && !Delivering(dev.rows[id].GetState())
            then IN_DEPLOYMENT
            else StateOf(BuiltRows(cfg, dev.rows, dv, now), id)
  {
    if id in dev.rows {
      GetTouchesExactlyTheWanted(cfg, refs, dev, req, dv, reply, now, id);
    } else {
      GetTouchesExactlyTheDelivered(cfg, refs, dev, req, dv, reply, now);
    }
  }

  /** The state of a row after the correction. */
  lemma CorrectedExactly(cfg: Config, dev: Device, req: GetRequest, dv: Versions, now: nat, id: string)
    requires id in BuiltDocument(cfg, dev, req, dv, now).doc
    ensures id in dev.rows
    ensures BuiltDocument(cfg, dev, req, dv, now).dev.rows == BuiltRows(cfg, dev.rows, dv, now)
    ensures StateOf(BuiltRows(cfg, dev.rows, dv, now), id)
         == if cfg.stateCorrection && NeedsCorrection(View(dev.rows[id]), id, dv) then DEPLOYED
            else StateOf(dev.rows, id)
  {
    BuiltDeviceRows(cfg, dev, req, dv, now);
    BuiltDocOf(cfg, dev, req, dv, now, id);
    CorrectedState(cfg, dev.rows, dv, now, id);
  }

  lemma LocalWriteIsTrueExactly(cfg: Config, refs: map<Bytes, Bytes>, dev: Device, req: GetRequest, dv: Versions,
                                now: nat, id: string)
    requires cfg.Valid()
    requires id in StateWritesWithoutUpstream(cfg, refs, BuiltDocument(cfg, dev, req, dv, now), req.mget, now).ids
    ensures
      var built := BuiltDocument(cfg, dev, req, dv, now);
      var w := StateWritesWithoutUpstream(cfg, refs, built, req.mget, now);
      Clip(StateOf(w.shown, id)) == Clip(StateOf(built.dev.rows, id))
      <==> !CorrectionUndone(cfg, refs, dev, req, dv, now, id)
  {
    var built := BuiltDocument(cfg, dev, req, dv, now);
    assert id in built.doc && Delivered(cfg, refs, built)[id].GetState() == built.doc[id].GetState();
    BuiltDocShowsStates(cfg, dev, req, dv, now, id);
    CorrectedExactly(cfg, dev, req, dv, now, id);
    UndoneAsWritten(cfg, refs, dev, req, dv, now, id);
  }

  lemma UndoneAreWritten(cfg: Config, refs: map<Bytes, Bytes>, dev: Device, req: GetRequest, dv: Versions, now: nat)
    requires cfg.Valid()
    ensures forall id :: CorrectionUndone(cfg, refs, dev, req, dv, now, id) ==>
              id in StateWritesWithoutUpstream(cfg, refs, BuiltDocument(cfg, dev, req, dv, now), req.mget, now).ids
  {
    forall id | CorrectionUndone(cfg, refs, dev, req, dv, now, id)
      ensures id in StateWritesWithoutUpstream(cfg, refs, BuiltDocument(cfg, dev, req, dv, now), req.mget, now).ids
    {
      UndoneIsWritten(cfg, refs, dev, req, dv, now, id);
    }
  }

  /** With upstream off the counters follow a request exactly when it undoes no correction. */
  lemma LocalGetIsTruthfulExactly(cfg: Config, refs: map<Bytes, Bytes>, dev: Device, req: GetRequest, dv: Versions,
                                  reply: UpstreamReply, now: nat)
    requires cfg.Valid() && !cfg.upstream && !req.FactoryReset()
    ensures GetIsTruthful(cfg, refs, dev, req, dv, reply, now)
            <==> forall id :: !CorrectionUndone(cfg, refs, dev, req, dv, now, id)
  {
    var w := GetStateWrites(cfg, refs, dev, req, dv, reply, now);
    GetIsOneWay(cfg, refs, dev, req, dv, reply, now);
    assert w.removed == {};
    UndoneAreWritten(cfg, refs, dev, req, dv, now);
    forall id | id in w.ids
      ensures Clip(StateOf(w.shown, id)) == Clip(StateOf(RowsBeforeStateWrites(cfg, dev, req, dv, now), id))
              <==> !CorrectionUndone(cfg, refs, dev, req, dv, now, id)
    {
      LocalWriteIsTrueExactly(cfg, refs, dev, req, dv, now, id);
    }
  }

  /** Every undone correction lets the counter of deployed rows run one ahead. */
  lemma UndoneRowsMoveDeployed(cfg: Config, refs: map<Bytes, Bytes>, dev: Device, req: GetRequest, dv: Versions,
                               reply: UpstreamReply, now: nat)
    requires cfg.Valid() && !cfg.upstream && !req.FactoryReset()
    ensures
      var w := GetStateWrites(cfg, refs, dev, req, dv, reply, now);
      Movement(w, RowsBeforeStateWrites(cfg, dev, req, dv, now), DEPLOYED)
      == |set id | id in dev.rows && CorrectionUndone(cfg, refs, dev, req, dv, now, id)|
  {
    var w := GetStateWrites(cfg, refs, dev, req, dv, reply, now);
    var rows := RowsBeforeStateWrites(cfg, dev, req, dv, now);
    GetIsOneWay(cfg, refs, dev, req, dv, reply, now);
    forall id | id in w.ids
      ensures StateOf(w.shown, id) != DEPLOYED
      ensures StateOf(rows, id) == DEPLOYED <==> CorrectionUndone(cfg, refs, dev, req, dv, now, id)
    {
      WrittenIsPending(cfg, refs, BuiltDocument(cfg, dev, req, dv, now), req.mget, now, id);
      BuiltDocShowsStates(cfg, dev, req, dv, now, id);
      CorrectedExactly(cfg, dev, req, dv, now, id);
      UndoneAsWritten(cfg, refs, dev, req, dv, now, id);
    }
    assert Among(w.ids, w.shown, DEPLOYED) == {};
    assert Among(w.removed, rows, DEPLOYED) == {};
    UndoneAreWritten(cfg, refs, dev, req, dv, now);
    assert Among(w.ids, rows, DEPLOYED)
        == set id | id in dev.rows && CorrectionUndone(cfg, refs, dev, req, dv, now, id);
  }

  /** It does happen: one pending row that the device names, and a header with other metadata. */
  lemma OnePendingRowIsUndone(cfg: Config, refs: map<Bytes, Bytes>, root: RootDoc, row: SubDocument, req: GetRequest,
                              now: nat, id: string)
    requires cfg.Valid() && cfg.stateCorrection && !cfg.filterByBitmap && id !in cfg.blockedIds && id != "root"
    requires row.GetState() == PENDING_DOWNLOAD && row.GetVersion() != "" && row.expiry.None?
    requires row.payload != [] && RefId(row.payload).None?
    requires !req.mget && !req.Mismatched() && root.Compare(req.meta).MetaChanged? && !root.Locked(now)
    ensures CorrectionUndone(cfg, refs, Device(map[id := row], Some(root)), req, map[id := row.GetVersion()], now, id)
  {
    var dev, dv := Device(map[id := row], Some(root)), map[id := row.GetVersion()];
    assert Comparison(dev, req, dv).MetaChanged?;
  }

  lemma WrittenIsPending(cfg: Config, refs: map<Bytes, Bytes>, built: Built, mget: bool, now: nat, id: string)
    requires cfg.Valid() && id in StateWritesWithoutUpstream(cfg, refs, built, mget, now).ids
    ensures id in built.doc && !Delivering(built.doc[id].GetState())
    ensures StateOf(StateWritesWithoutUpstream(cfg, refs, built, mget, now).shown, id) == built.doc[id].GetState()
  {
  }

  /** Unless the metadata changed, a document holds only rows the device does not name. */
  lemma BuiltDocIsStale(cfg: Config, dev: Device, req: GetRequest, dv: Versions, now: nat, id: string)
    requires var built := BuiltDocument(cfg, dev, req, dv, now); id in built.doc && !built.postUpstream
    ensures id in dev.rows && View(dev.rows[id]).GetVersion() != Lookup(dv, id, "")
  {
    var readable := ReadDocument(dev.rows, false, now);
    var cloud := dev.root.GetOr(req.meta);
    assert id in ForGet(readable, cloud.version, dv);
  }

  /** The row written was read as it is stored, or it is stored in no state. */
  ghost predicate ToldTrue(cfg: Config, dev: Device, dv: Versions, shown: Rows, rows: Rows, id: string) {
    if id in shown then !(cfg.stateCorrection && id in dev.rows && NeedsCorrection(View(dev.rows[id]), id, dv))
    else !IsState(StateOf(rows, id))
  }

  lemma ToldTrueExactly(cfg: Config, refs: map<Bytes, Bytes>, dev: Device, req: GetRequest, dv: Versions,
                        reply: UpstreamReply, now: nat, id: string)
    requires cfg.Valid() && !req.FactoryReset()
    requires id in GetStateWrites(cfg, refs, dev, req, dv, reply, now).ids
    ensures
      var shown := GetStateWrites(cfg, refs, dev, req, dv, reply, now).shown;
      var rows := BuiltDocument(cfg, dev, req, dv, now).dev.rows;
      Clip(StateOf(shown, id)) == Clip(StateOf(rows, id)) <==> ToldTrue(cfg, dev, dv, shown, rows, id)
  {
    if id in GetStateWrites(cfg, refs, dev, req, dv, reply, now).shown {
      ShownIsBuilt(cfg, refs, dev, req, dv, reply, now, id);
      BuiltDocShowsStates(cfg, dev, req, dv, now, id);
      CorrectedExactly(cfg, dev, req, dv, now, id);
    }
  }

  lemma WritesToldTrueExactly(cfg: Config, refs: map<Bytes, Bytes>, dev: Device, req: GetRequest, dv: Versions,
                                     reply: UpstreamReply, now: nat)
    requires cfg.Valid() && cfg.upstream && !req.FactoryReset()
    ensures
      var w := GetStateWrites(cfg, refs, dev, req, dv, reply, now);
      var rows := BuiltDocument(cfg, dev, req, dv, now).dev.rows;
      GetIsTruthful(cfg, refs, dev, req, dv, reply, now)
      <==> forall id :: id in w.ids ==> ToldTrue(cfg, dev, dv, w.shown, rows, id)
  {
    var w := GetStateWrites(cfg, refs, dev, req, dv, reply, now);
    var rows := BuiltDocument(cfg, dev, req, dv, now).dev.rows;
    GetIsOneWay(cfg, refs, dev, req, dv, reply, now);
    UpstreamWritesRemoveNothing(cfg, refs, BuiltDocument(cfg, dev, req, dv, now), req.mget, dv, reply, now);
    forall id | id in w.ids
      ensures Clip(StateOf(w.shown, id)) == Clip(StateOf(rows, id)) <==> ToldTrue(cfg, dev, dv, w.shown, rows, id)
    {
      ToldTrueExactly(cfg, refs, dev, req, dv, reply, now, id);
    }
  }

  /** An answer that asks nothing of upstream always passes true states. */
  lemma StoreAnswerIsTruthful(cfg: Config, refs: map<Bytes, Bytes>, dev: Device, req: GetRequest, dv: Versions,
                              reply: UpstreamReply, now: nat)
    requires cfg.Valid() && cfg.upstream && !req.FactoryReset() && !AsksUpstream(cfg, dev, req, dv, now)
    ensures GetIsTruthful(cfg, refs, dev, req, dv, reply, now)
  {
    var w := GetStateWrites(cfg, refs, dev, req, dv, reply, now);
    BuiltAsks(cfg, dev, req, dv, now);
    WritesToldTrueExactly(cfg, refs, dev, req, dv, reply, now);
    UpstreamWritesRemoveNothing(cfg, refs, BuiltDocument(cfg, dev, req, dv, now), req.mget, dv, reply, now);
    forall id | id in w.ids
      ensures ToldTrue(cfg, dev, dv, w.shown, BuiltDocument(cfg, dev, req, dv, now).dev.rows, id)
    {
      ShownIsBuilt(cfg, refs, dev, req, dv, reply, now, id);
      BuiltDocIsStale(cfg, dev, req, dv, now, id);
    }
  }

  lemma UpstreamWritesRemoveNothing(cfg: Config, refs: map<Bytes, Bytes>, built: Built, mget: bool, dv: Versions,
                                    reply: UpstreamReply, now: nat)
    requires cfg.Valid()
    ensures
      var w := StateWritesWithUpstream(cfg, refs, built, mget, dv, reply, now);
      w.removed == {} && (built.error == NoError && !built.postUpstream ==> w.ids <= w.shown.Keys)
  {
  }

  // ---------- the same for an upstream answer ----------

  /** The document that goes upstream shows the row. */
  ghost predicate ShownUpstream(cfg: Config, dev: Device, req: GetRequest, now: int, id: string)
    requires cfg.Valid()
  {
    && id in dev.rows && Visible(dev.rows[id], false, now)
    && (cfg.filterByBitmap ==>
          SupportedOrExempt(cfg.indexes, dev.root.GetOr(req.meta).bitmap, cfg.exemptIds, id))
  }

  /** The answer brings the row, and not the version that the device, and the row it was shown, have already. */
  ghost predicate Brought(cfg: Config, dev: Device, req: GetRequest, dv: Versions, parts: seq<Multipart>, now: int,
                          id: string)
    requires cfg.Valid()
  {
    && id in FromParts(parts)
    && !(&& ShownUpstream(cfg, dev, req, now, id) && id in dv
         && FromParts(parts)[id].GetVersion() == dv[id] && dev.rows[id].GetVersion() == dv[id])
  }

  /** The row was shown and needed no correction, or was not shown and is in no state. */
  ghost predicate ReadTruly(cfg: Config, dev: Device, req: GetRequest, dv: Versions, now: int, id: string)
    requires cfg.Valid()
  {
    if ShownUpstream(cfg, dev, req, now, id) then !(cfg.stateCorrection && NeedsCorrection(View(dev.rows[id]), id, dv))
    else !IsState(StateOf(dev.rows, id))
  }

  /** With upstream on the counters follow a request exactly when it writes nothing back, or every row that
      the answer brings was read truly. */
  lemma UpstreamGetIsTruthfulExactly(cfg: Config, refs: map<Bytes, Bytes>, dev: Device, req: GetRequest, dv: Versions,
                                     reply: UpstreamReply, now: nat)
    requires cfg.Valid() && cfg.upstream && !req.FactoryReset()
    ensures GetIsTruthful(cfg, refs, dev, req, dv, reply, now) <==>
              (WritesBack(cfg, dev, req, dv, reply, now) ==>
                 forall id :: Brought(cfg, dev, req, dv, reply.parts, now, id) ==>
                   ReadTruly(cfg, dev, req, dv, now, id))
  {
    if !AsksUpstream(cfg, dev, req, dv, now) {
      StoreAnswerIsTruthful(cfg, refs, dev, req, dv, reply, now);
    } else {
      WritesToldTrueExactly(cfg, refs, dev, req, dv, reply, now);
      AskingWrites(cfg, refs, dev, req, dv, reply, now);
      if WritesBack(cfg, dev, req, dv, reply, now) {
        var w := GetStateWrites(cfg, refs, dev, req, dv, reply, now);
        forall id
          ensures id in w.ids <==> Brought(cfg, dev, req, dv, reply.parts, now, id)
          ensures ToldTrue(cfg, dev, dv, w.shown, BuiltDocument(cfg, dev, req, dv, now).dev.rows, id)
                  <==> ReadTruly(cfg, dev, req, dv, now, id)
        {
          WrittenIsBrought(cfg, refs, dev, req, dv, reply, now, id);
        }
      }
    }
  }

  /** What a request that asks upstream writes. */
  lemma AskingWrites(cfg: Config, refs: map<Bytes, Bytes>, dev: Device, req: GetRequest, dv: Versions,
                     reply: UpstreamReply, now: nat)
    requires cfg.Valid() && cfg.upstream && !req.FactoryReset() && AsksUpstream(cfg, dev, req, dv, now)
    ensures
      var w := GetStateWrites(cfg, refs, dev, req, dv, reply, now);
      var built := BuiltDocument(cfg, dev, req, dv, now);
      w == if WritesBack(cfg, dev, req, dv, reply, now)
           then UpstreamStateWrites(FromParts(reply.parts), BitmapFiltered(cfg, built.doc, built.docRoot.bitmap), false,
                                    dv, now)
           else NO_WRITES
  {
    BuiltAsks(cfg, dev, req, dv, now);
    BuiltRoots(cfg, dev, req, dv, now);
  }

  /** The document of a request that asks upstream is all it read. */
  lemma AskedDocument(cfg: Config, dev: Device, req: GetRequest, dv: Versions, now: nat)
    requires !req.FactoryReset() && AsksUpstream(cfg, dev, req, dv, now)
    ensures
      var built := BuiltDocument(cfg, dev, req, dv, now);
      && built.doc == ReadDocument(dev.rows, false, now)
      && (built.doc != map[] ==> built.docRoot == dev.root.GetOr(req.meta))
  {
  }

  lemma AskedDocumentShows(cfg: Config, dev: Device, req: GetRequest, dv: Versions, now: nat, id: string)
    requires cfg.Valid() && !req.FactoryReset() && AsksUpstream(cfg, dev, req, dv, now)
    ensures
      var built := BuiltDocument(cfg, dev, req, dv, now);
      var shown := BitmapFiltered(cfg, built.doc, built.docRoot.bitmap);
      && (id in shown <==> ShownUpstream(cfg, dev, req, now, id))
      && (id in shown ==> shown[id] == View(dev.rows[id]))
  {
    AskedDocument(cfg, dev, req, dv, now);
    if id in dev.rows && Visible(dev.rows[id], false, now) {
      assert id in ReadDocument(dev.rows, false, now);
    }
  }

  lemma WrittenIsBrought(cfg: Config, refs: map<Bytes, Bytes>, dev: Device, req: GetRequest, dv: Versions,
                         reply: UpstreamReply, now: nat, id: string)
    requires cfg.Valid() && cfg.upstream && !req.FactoryReset() && WritesBack(cfg, dev, req, dv, reply, now)
    ensures
      var w := GetStateWrites(cfg, refs, dev, req, dv, reply, now);
      && (id in w.ids <==> Brought(cfg, dev, req, dv, reply.parts, now, id))
      && (ToldTrue(cfg, dev, dv, w.shown, BuiltDocument(cfg, dev, req, dv, now).dev.rows, id)
          <==> ReadTruly(cfg, dev, req, dv, now, id))
  {
    AskingWrites(cfg, refs, dev, req, dv, reply, now);
    AskedDocumentShows(cfg, dev, req, dv, now, id);
    Machine.BuiltDocumentDevice(cfg, dev, req, dv, now);
    StaysInSomeState(cfg, dev, req, dv, now, id);
    PartsHaveVersions(reply.parts, id);
  }

  lemma PartsHaveVersions(parts: seq<Multipart>, id: string)
    ensures id in FromParts(parts) ==> FromParts(parts)[id].version.Some?
  {
  }

  /** Correction moves a row from one of the four states to another of them. */
  lemma StaysInSomeState(cfg: Config, dev: Device, req: GetRequest, dv: Versions, now: nat, id: string)
    ensures IsState(StateOf(BuiltDevice(cfg, dev, req, dv, now).rows, id)) <==> IsState(StateOf(dev.rows, id))
  {
  }

  /** It does go wrong: upstream replaces an expired row that is in a state, on a request of changed metadata. */
  lemma ExpiredRowIsReplaced(cfg: Config, refs: map<Bytes, Bytes>, dev: Device, req: GetRequest, dv: Versions,
                             reply: UpstreamReply, now: nat, id: string)
    requires cfg.Valid() && cfg.upstream && !req.FactoryReset() && !req.mget && !req.Mismatched()
    requires Comparison(dev, req, dv).MetaChanged? && !LockedOut(cfg, dev, req, now)
    requires reply.Replied? && !reply.skipDbUpdate && id in FromParts(reply.parts)
    requires id in dev.rows && Expired(dev.rows[id], now) && IsState(dev.rows[id].GetState())
    ensures !GetIsTruthful(cfg, refs, dev, req, dv, reply, now)
  {
    UpstreamGetIsTruthfulExactly(cfg, refs, dev, req, dv, reply, now);
    assert Brought(cfg, dev, req, dv, reply.parts, now, id) && !ReadTruly(cfg, dev, req, dv, now, id);
  }

  /** A reset without upstream keeps counters and rows together exactly when it finds no visible row or
      no row, visible or not, in a state; a reset with upstream when no row in a state is deleted, or
      replaced although it was not read. */
  lemma ResetIsTruthfulExactly(cfg: Config, refs: map<Bytes, Bytes>, dev: Device, req: GetRequest, dv: Versions,
                               reply: UpstreamReply, now: nat)
    requires cfg.Valid() && req.FactoryReset()
    ensures
      var doc := ReadDocument(dev.rows, false, now);
      GetIsTruthful(cfg, refs, dev, req, dv, reply, now) <==>
        || doc == map[]
        || (!cfg.upstream && forall id :: id in dev.rows ==> !IsState(StateOf(dev.rows, id)))
        || (cfg.upstream && (!reply.Replied? || reply.skipDbUpdate ||
             var newIds := FromParts(reply.parts).Keys - Keyed(cfg.blockedIds);
             forall id :: id in dev.rows && IsState(StateOf(dev.rows, id)) ==> (id in newIds <==> id in doc)))
  {
  }
}
