/** Runs of the service over one device, and what every state of a run satisfies. */
module Machine {
  import opened Common
  import opened RootDocuments
  import opened Documents
  import opened Store
  import opened Steps
  import RootHash

  /** One handler, taken as an atomic step. A config request carries the version map the service
      attributes to the device and the reference table it sees. */
  datatype Step =
    | Post(id: string, payload: Bytes, version: string, header: StateHeader, expiry: Option<int>, now: nat)
    | DeleteSub(id: string, now: nat)
    | DeleteDoc(now: nat)
    | Get(req: GetRequest, deviceVersions: Versions, refs: map<Bytes, Bytes>, reply: UpstreamReply, now: nat)
    | Report(m: EventMessage, now: nat)
    | Poke(broker: BrokerReply, now: nat)
    | Precook(refs: map<Bytes, Bytes>, tag: string, now: nat)

  /** POST validates a non-empty body; the attributed version map is one the service can compute, except for a
      reset, which computes none. */
  ghost predicate Enabled(dev: Device, step: Step) {
    match step
    case Post(_, payload, _, _, _, _) => payload != []
    case Get(req, dv, _, _, now) =>
      req.WellFormed() && (!req.FactoryReset() ==> DeviceVersions(req, dev.rows, now, dv))
    case _ => true
  }

  ghost function Next(cfg: Config, dev: Device, step: Step): Device
    requires cfg.Valid()
  {
    match step
    case Post(id, payload, version, header, expiry, now) =>
      var d := PostedRecord(payload, version, header, expiry, now);
      if TimesAccepted(d) then Posted(cfg, dev, id, d, now) else dev
    case DeleteSub(id, now) => DeletedSubDocument(cfg, dev, id, now)
    case DeleteDoc(now) => DeletedDocument(cfg, dev, now)
    case Get(req, dv, refs, reply, now) => Got(cfg, refs, dev, req, dv, reply, now).0
    case Report(m, now) => Reported(cfg, dev, m, now).0
    case Poke(broker, now) => Poked(cfg, dev, broker, now).0
    case Precook(refs, tag, now) => PrecookStep(cfg, refs, dev, tag, now).0
  }

  /** A run from a device the service has never seen. */
  ghost predicate Run(cfg: Config, states: seq<Device>, steps: seq<Step>)
    requires cfg.Valid()
  {
    && |states| == |steps| + 1
    && states[0] == NO_DEVICE
    && forall i :: 0 <= i < |steps| ==> Enabled(states[i], steps[i]) && states[i + 1] == Next(cfg, states[i], steps[i])
  }

  // ---------- what state writes leave alone ----------

  /** The writes go to existing rows and bring no new payload and no new version. */
  ghost predicate KeepsContent(rows: Rows, writes: Rows) {
    forall id :: id in writes ==>
      && id in rows
      && (writes[id].payload == [] || writes[id].payload == rows[id].payload)
      && (writes[id].version.None? || writes[id].version.value == rows[id].GetVersion())
  }

  /** The versions of the rows that have a payload, expired or not. */
  function ContentVersions(rows: Rows): Versions {
    map id | id in rows && rows[id].payload != [] :: rows[id].GetVersion()
  }

  /** They are what a read that includes expired rows shows. */
  lemma ReadShowsContent(rows: Rows, now: int)
    ensures VersionMap(ReadDocument(rows, true, now)) == ContentVersions(rows)
  {
  }

  lemma WritesKeepVersions(rows: Rows, writes: Rows)
    requires KeepsContent(rows, writes)
    ensures ContentVersions(WriteAll(rows, writes)) == ContentVersions(rows)
  {
    var after := WriteAll(rows, writes);
    forall id | id in rows
      ensures after[id].payload == rows[id].payload && after[id].GetVersion() == rows[id].GetVersion()
    {
    }
  }

  // ---------- the root version is an index of the rows ----------

  /** A device with a row that has a payload has a root document whose version is the hash of the
      versions of all such rows, expired or not. */
  ghost predicate Indexed(cfg: Config, dev: Device) {
    ContentVersions(dev.rows) != map[] ==>
      dev.root.Some? && dev.root.value.version == RootHash.RootVersion(cfg.murmur, ContentVersions(dev.rows))
  }

  /** No row with a payload has expired. */
  ghost predicate NoneExpired(rows: Rows, now: int) {
    forall id :: id in rows && rows[id].payload != [] ==> !Expired(rows[id], now)
  }

  /** No row with a payload has expired; or some row is visible, and the expired ones have no version,
      so that the hashed text does not show them. */
  ghost predicate ExpiredDoNotShow(rows: Rows, now: int) {
    || NoneExpired(rows, now)
    || ((exists id :: id in rows && Visible(rows[id], false, now))
        && (forall id :: id in rows && rows[id].payload != [] && Expired(rows[id], now) ==>
            rows[id].GetVersion() == ""))
  }

  /** DELETE of a subdocument must not find another row expired, unless the hash is blind to it: its
      re-read would miss that row. */
  ghost predicate DeleteSeesAll(dev: Device, step: Step) {
    step.DeleteSub? ==> ExpiredDoNotShow(dev.rows - {step.id}, step.now)
  }

  ghost predicate SameRootVersion(dev: Device, dev': Device) {
    dev.root.Some? ==> dev'.root.Some? && dev'.root.value.version == dev.root.value.version
  }

  lemma SameVersionsStayIndexed(cfg: Config, dev: Device, dev': Device)
    requires Indexed(cfg, dev)
    requires ContentVersions(dev'.rows) == ContentVersions(dev.rows)
    requires SameRootVersion(dev, dev')
    ensures Indexed(cfg, dev')
  {
  }

  lemma VersionMapSet(doc: Rows, id: string, d: SubDocument)
    requires d.version.Some?
    ensures VersionMap(doc[id := d]) == VersionMap(doc)[id := d.version.value]
  {
  }

  lemma PostIndexes(cfg: Config, dev: Device, id: string, d: SubDocument, now: nat)
    requires d.payload != [] && d.version.Some?
    ensures Indexed(cfg, Posted(cfg, dev, id, d, now))
  {
    var rows := RowWritten(dev, id, d).rows;
    ReadShowsContent(rows, now);
    VersionMapSet(ReadDocument(rows, true, now), id, d);
    assert rows[id].payload == d.payload && rows[id].GetVersion() == d.version.value;
    assert ContentVersions(rows)[id := d.version.value] == ContentVersions(rows);
  }

  lemma DeleteIndexes(cfg: Config, dev: Device, now: nat)
    requires ExpiredDoNotShow(dev.rows, now)
    ensures Indexed(cfg, Reindexed(cfg, dev, now))
  {
    ReadTextExactly(dev.rows, now);
    var doc := ReadDocument(dev.rows, false, now);
    if doc == map[] {
      forall id | id in dev.rows ensures !Visible(dev.rows[id], false, now) {
        assert id !in doc;
      }
      assert NoneExpired(dev.rows, now);
      assert ContentVersions(dev.rows) == map[];
    }
  }

  /** A read without the expired rows has the text of all rows exactly when no expired row has a version. */
  lemma ReadTextExactly(rows: Rows, now: nat)
    ensures RootHash.HashedText(VersionMap(ReadDocument(rows, false, now)))
            == RootHash.HashedText(ContentVersions(rows))
            <==> forall id :: id in rows && rows[id].payload != [] && Expired(rows[id], now) ==>
                rows[id].GetVersion() == ""
  {
    var part, whole := VersionMap(ReadDocument(rows, false, now)), ContentVersions(rows);
    forall k | k in part ensures k in whole && part[k] == whole[k] {
      assert k in ReadDocument(rows, false, now);
    }
    RootHash.PartHasSameTextExactly(part, whole);
    forall k ensures k in whole && k !in part <==> k in rows && rows[k].payload != [] && Expired(rows[k], now) {
      assert k in part <==> k in ReadDocument(rows, false, now);
    }
  }

  lemma CorrectionsKeepContent(rows: Rows, doc: Rows, dv: Versions, now: nat)
    requires doc == ReadDocument(rows, false, now)
    ensures KeepsContent(rows, Corrections(doc, dv, now))
  {
  }

  lemma BuiltRowsKeepVersions(cfg: Config, rows: Rows, dv: Versions, now: nat)
    ensures BuiltRows(cfg, rows, dv, now).Keys == rows.Keys
    ensures ContentVersions(BuiltRows(cfg, rows, dv, now)) == ContentVersions(rows)
  {
    var readable := ReadDocument(rows, false, now);
    CorrectionsKeepContent(rows, readable, dv, now);
    WritesKeepVersions(rows, Corrections(readable, dv, now));
  }

  /** The metadata a config request stores carries an empty version, which never overwrites. */
  lemma BuiltRootKeepsVersion(dev: Device, req: GetRequest)
    requires req.WellFormed() && dev.root.Some?
    ensures BuiltRoot(dev, req).Some? && BuiltRoot(dev, req).value.version == dev.root.value.version
  {
  }

  /** A config request leaves every row's version alone, and the root version too. */
  lemma BuiltDeviceKeepsVersions(cfg: Config, dev: Device, req: GetRequest, dv: Versions, now: nat)
    requires req.WellFormed()
    ensures var dev' := BuiltDevice(cfg, dev, req, dv, now);
            dev'.rows.Keys == dev.rows.Keys
            && ContentVersions(dev'.rows) == ContentVersions(dev.rows)
            && SameRootVersion(dev, dev')
  {
    BuiltRowsKeepVersions(cfg, dev.rows, dv, now);
    if dev.root.Some? {
      BuiltRootKeepsVersion(dev, req);
    }
  }

  lemma BuiltDocumentDevice(cfg: Config, dev: Device, req: GetRequest, dv: Versions, now: nat)
    ensures BuiltDocument(cfg, dev, req, dv, now).dev == BuiltDevice(cfg, dev, req, dv, now)
  {
  }

  lemma BuiltDocIsOfRows(cfg: Config, dev: Device, req: GetRequest, dv: Versions, now: nat)
    ensures BuiltDocument(cfg, dev, req, dv, now).doc.Keys <= dev.rows.Keys
  {
  }

  lemma GetKeepsIndex(cfg: Config, refs: map<Bytes, Bytes>, dev: Device, req: GetRequest, dv: Versions, now: nat)
    requires cfg.Valid()
    requires Indexed(cfg, dev) && req.WellFormed()
    ensures Indexed(cfg, GetWithoutUpstream(cfg, refs, dev, req, dv, now).0)
  {
    var built := BuiltDocument(cfg, dev, req, dv, now);
    var dev' := GetWithoutUpstream(cfg, refs, dev, req, dv, now).0;
    BuiltDeviceKeepsVersions(cfg, dev, req, dv, now);
    BuiltDocumentDevice(cfg, dev, req, dv, now);
    SameVersionsStayIndexed(cfg, dev, built.dev);
    if dev' != built.dev {
      BuiltDocIsOfRows(cfg, dev, req, dv, now);
      var writes := InDeploymentWrites(Delivered(cfg, refs, built), now);
      WritesKeepVersions(built.dev.rows, writes);
      SameVersionsStayIndexed(cfg, built.dev, dev');
    }
  }

  lemma ResetKeepsIndex(cfg: Config, refs: map<Bytes, Bytes>, dev: Device, meta: RootDoc, reply: UpstreamReply,
                        now: nat)
    requires cfg.Valid() && !cfg.upstream
    requires Indexed(cfg, dev) && meta.version == ""
    ensures Indexed(cfg, FactoryReset(cfg, refs, dev, meta, reply, now).0)
  {
    assert ContentVersions(map[]) == map[];
  }

  lemma ReportKeepsIndex(cfg: Config, dev: Device, m: EventMessage, now: nat)
    requires Indexed(cfg, dev)
    ensures Indexed(cfg, Reported(cfg, dev, m, now).0)
  {
    var dev' := Reported(cfg, dev, m, now).0;
    if m.IsHttp304() {
      var doc := ReadDocument(dev.rows, false, now);
      WritesKeepVersions(dev.rows, Http304Writes(doc, now));
      SameVersionsStayIndexed(cfg, dev, dev');
    } else if dev' != dev {
      var writes := map[m.namespace.value := ReportRecord(cfg, m, now)];
      assert dev'.rows == WriteAll(dev.rows, writes);
      WritesKeepVersions(dev.rows, writes);
      SameVersionsStayIndexed(cfg, dev, dev');
    }
  }

  lemma PokeKeepsIndex(cfg: Config, dev: Device, broker: BrokerReply, now: nat)
    requires Indexed(cfg, dev)
    ensures Indexed(cfg, Poked(cfg, dev, broker, now).0)
  {
    var dev' := Poked(cfg, dev, broker, now).0;
    if dev' != dev {
      var writes := PokeWrites(StateMap(PokeDocument(cfg, dev, now).value), now);
      WritesKeepVersions(dev.rows, writes);
      SameVersionsStayIndexed(cfg, dev, dev');
    }
  }

  lemma PrecookKeepsIndex(cfg: Config, refs: map<Bytes, Bytes>, dev: Device, tag: string, now: nat)
    requires Indexed(cfg, dev)
    ensures Indexed(cfg, PrecookStep(cfg, refs, dev, tag, now).0)
  {
    var dev' := PrecookStep(cfg, refs, dev, tag, now).0;
    if dev' != dev {
      assert ContentVersions(dev'.rows) == ContentVersions(dev.rows);
      SameVersionsStayIndexed(cfg, dev, dev');
    }
  }

  lemma NextKeepsIndex(cfg: Config, dev: Device, step: Step)
    requires cfg.Valid() && !cfg.upstream
    requires Indexed(cfg, dev) && Enabled(dev, step) && DeleteSeesAll(dev, step)
    ensures Indexed(cfg, Next(cfg, dev, step))
  {
    match step
    case Post(id, payload, version, header, expiry, now) =>
      PostIndexes(cfg, dev, id, PostedRecord(payload, version, header, expiry, now), now);
    case DeleteSub(id, now) => DeleteIndexes(cfg, dev.(rows := dev.rows - {id}), now);
    case DeleteDoc(now) => DeleteIndexes(cfg, dev.(rows := map[]), now);
    case Get(req, dv, refs, reply, now) =>
      if req.FactoryReset() {
        ResetKeepsIndex(cfg, refs, dev, req.meta, reply, now);
      } else {
        GetKeepsIndex(cfg, refs, dev, req, dv, now);
      }
    case Report(m, now) => ReportKeepsIndex(cfg, dev, m, now);
    case Poke(broker, now) => PokeKeepsIndex(cfg, dev, broker, now);
    case Precook(refs, tag, now) => PrecookKeepsIndex(cfg, refs, dev, tag, now);
  }

  /** In every state of every run without upstream in which no DELETE finds another row expired, or only
      rows without a version among visible ones, the root version is the hash of the rows. */
  lemma {:induction false} RootVersionIsIndex(cfg: Config, states: seq<Device>, steps: seq<Step>, i: nat)
    requires cfg.Valid() && !cfg.upstream
    requires Run(cfg, states, steps)
    requires forall k :: 0 <= k < |steps| ==> DeleteSeesAll(states[k], steps[k])
    requires i < |states|
    ensures Indexed(cfg, states[i])
  {
    if i == 0 {
      assert ContentVersions(map[]) == map[];
    } else {
      RootVersionIsIndex(cfg, states, steps, i - 1);
      NextKeepsIndex(cfg, states[i - 1], steps[i - 1]);
    }
  }

  /** The hash is never empty and does not map these two texts to one value. */
  ghost predicate NoCollision(murmur: string -> string, a: string, b: string) {
    (forall text :: murmur(text) != "") && (murmur(a) == murmur(b) ==> a == b)
  }

  /** Barring a collision of the hash, DELETE of a subdocument leaves the root version an index of the
      remaining rows exactly when none of them has expired, or some are visible and the expired ones have
      no version: its re-read hides the expired rows. */
  lemma DeleteKeepsIndexExactly(cfg: Config, dev: Device, id: string, now: nat)
    requires
      var rows := dev.rows - {id};
      NoCollision(cfg.murmur, RootHash.HashedText(VersionMap(ReadDocument(rows, false, now))),
                  RootHash.HashedText(ContentVersions(rows)))
    ensures Indexed(cfg, DeletedSubDocument(cfg, dev, id, now)) <==> ExpiredDoNotShow(dev.rows - {id}, now)
  {
    var rows := dev.rows - {id};
    if ExpiredDoNotShow(rows, now) {
      DeleteIndexes(cfg, dev.(rows := rows), now);
    } else {
      var k :| k in rows && rows[k].payload != [] && Expired(rows[k], now);
      assert k in ContentVersions(rows);
      ReadTextExactly(rows, now);
      if ReadDocument(rows, false, now) != map[] {
        var j :| j in ReadDocument(rows, false, now);
        assert Visible(rows[j], false, now);
      }
    }
  }
}
