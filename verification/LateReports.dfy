/** Late, duplicated and reordered device reports never mark the wrong version as deployed. */
module LateReports {
  import opened Common
  import opened RootDocuments
  import opened Documents
  import opened Store
  import opened Steps
  import opened Machine

  /** The stored device, every report the device ever sent (nothing leaves the channel, so a report
      can arrive at any later time, in any order and any number of times), and what the device has
      named: pairs of subdocument and version in success reports and well-matched headers, and bare
      versions in headers whose two lists differ in length. */
  datatype World = World(dev: Device, sent: set<EventMessage>, named: set<(string, string)>, listed: set<string>)

  datatype Move =
    | Send(m: EventMessage)
    | Deliver(m: EventMessage, now: nat)
    | Handle(step: Step)

  function PairsOf(req: GetRequest): set<(string, string)> {
    if req.docs != [] && |req.docs| == |req.versions|
    then set i | 0 <= i < |req.docs| :: (req.docs[i], req.versions[i])
    else {}
  }

  function BareVersionsOf(req: GetRequest): set<string> {
    if req.Mismatched() then set v | v in req.versions else {}
  }

  /** A success report names its version for its subdocument. */
  function PairOf(m: EventMessage): set<(string, string)> {
    if m.IsSuccess() && m.version.Some? then {(m.namespace.value, m.version.value)} else {}
  }

  /** Success reports carry a version. */
  predicate Versioned(m: EventMessage) {
    m.IsSuccess() ==> m.version.Some?
  }

  /** No root 304 report arrives, success reports carry a version, and POST asks for neither the
      deployed state nor for keeping the old one; reports come through the channel only. */
  ghost predicate Possible(w: World, move: Move) {
    match move
    case Send(m) => Versioned(m)
    case Deliver(m, now) => m in w.sent && !m.IsHttp304()
    case Handle(step) =>
      && Enabled(w.dev, step)
      && !step.Report?
      && (step.Post? ==> step.header != StateNull && step.header != StateNumber(DEPLOYED))
  }

  ghost function Moved(cfg: Config, w: World, move: Move): World
    requires cfg.Valid()
  {
    match move
    case Send(m) => w.(sent := w.sent + {m}, named := w.named + PairOf(m))
    case Deliver(m, now) => w.(dev := Reported(cfg, w.dev, m, now).0)
    case Handle(step) =>
      var w' := w.(dev := Next(cfg, w.dev, step));
      if step.Get? then w'.(named := w.named + PairsOf(step.req), listed := w.listed + BareVersionsOf(step.req)) else w'
  }

  ghost predicate Run(cfg: Config, worlds: seq<World>, moves: seq<Move>)
    requires cfg.Valid()
  {
    && |worlds| == |moves| + 1
    && worlds[0] == World(NO_DEVICE, {}, {}, {})
    && forall i :: 0 <= i < |moves| ==>
        Possible(worlds[i], moves[i]) && worlds[i + 1] == Moved(cfg, worlds[i], moves[i])
  }

  ghost predicate Vouched(row: SubDocument, id: string, named: set<(string, string)>, listed: set<string>) {
    row.GetState() == DEPLOYED ==> (id, row.GetVersion()) in named || row.GetVersion() in listed
  }

  /** Every deployed row has a version the device has named. */
  ghost predicate RowsVouched(rows: Rows, named: set<(string, string)>, listed: set<string>) {
    forall id :: id in rows ==> Vouched(rows[id], id, named, listed)
  }

  ghost predicate Safe(w: World) {
    && RowsVouched(w.dev.rows, w.named, w.listed)
    && (forall m :: m in w.sent ==> Versioned(m) && PairOf(m) <= w.named)
  }

  // ---------- writes that mark nothing deployed ----------

  /** Every write either sets a state other than deployed, or deploys a version the device named. */
  ghost predicate WritesVouched(rows: Rows, writes: Rows, named: set<(string, string)>, listed: set<string>) {
    forall id :: id in writes ==>
      writes[id].state.Some? && Vouched(Upsert(RowOf(rows, id), writes[id]), id, named, listed)
  }

  lemma WriteAllVouched(rows: Rows, writes: Rows, named: set<(string, string)>, listed: set<string>)
    requires RowsVouched(rows, named, listed) && WritesVouched(rows, writes, named, listed)
    ensures RowsVouched(WriteAll(rows, writes), named, listed)
  {
  }

  lemma {:induction false} ZipPairs(ids: seq<string>, versions: seq<string>, id: string)
    requires |ids| == |versions| && id in Zip(ids, versions)
    ensures exists i :: 0 <= i < |ids| && ids[i] == id && versions[i] == Zip(ids, versions)[id]
  {
    var n := |ids| - 1;
    if id != ids[n] {
      ZipPairs(ids[..n], versions[..n], id);
      var i :| 0 <= i < n && ids[..n][i] == id && versions[..n][i] == Zip(ids, versions)[id];
      assert ids[i] == id && versions[i] == Zip(ids, versions)[id];
    }
  }

  /** Whatever version map the service attributes to the device, the device named what is in it. */
  lemma AttributedVersionsAreNamed(req: GetRequest, rows: Rows, now: int, dv: Versions, id: string)
    requires req.WellFormed() && DeviceVersions(req, rows, now, dv) && id in dv
    ensures (id, dv[id]) in PairsOf(req) || dv[id] in BareVersionsOf(req)
  {
    if req.docs != [] {
      if |req.docs| == |req.versions| {
        ZipPairs(req.docs, req.versions, id);
      } else {
        assert req.versions[0] in req.versions;
      }
    }
  }

  lemma BuiltRowsVouched(cfg: Config, dev: Device, req: GetRequest, dv: Versions, now: nat,
                         named: set<(string, string)>, listed: set<string>)
    requires req.WellFormed() && RowsVouched(dev.rows, named, listed)
    requires DeviceVersions(req, dev.rows, now, dv)
    ensures RowsVouched(BuiltDevice(cfg, dev, req, dv, now).rows, named + PairsOf(req), listed + BareVersionsOf(req))
  {
    if !(req.Mismatched() && ReadDocument(dev.rows, false, now) == map[]) && cfg.stateCorrection {
      var doc := ReadDocument(dev.rows, false, now);
      var writes := Corrections(doc, dv, now);
      forall id | id in writes
        ensures Vouched(Upsert(RowOf(dev.rows, id), writes[id]), id, named + PairsOf(req), listed + BareVersionsOf(req))
      {
        AttributedVersionsAreNamed(req, dev.rows, now, dv, id);
      }
      WriteAllVouched(dev.rows, writes, named + PairsOf(req), listed + BareVersionsOf(req));
    }
  }

  lemma InDeploymentVouched(rows: Rows, doc: Rows, now: nat, named: set<(string, string)>, listed: set<string>)
    requires RowsVouched(rows, named, listed)
    ensures RowsVouched(WriteAll(rows, InDeploymentWrites(doc, now)), named, listed)
  {
  }

  lemma UpstreamVouched(dev: Device, etag: string, newDoc: Rows, doc: Rows, docVersion: string, toDelete: bool,
                        dv: Versions, now: nat, named: set<(string, string)>, listed: set<string>)
    requires RowsVouched(dev.rows, named, listed)
    ensures RowsVouched(WrittenFromUpstream(dev, etag, newDoc, doc, docVersion, toDelete, dv, now).rows, named, listed)
  {
    WriteAllVouched(dev.rows, UpstreamWrites(newDoc, doc, dv, now), named, listed);
  }

  lemma GetWithoutUpstreamVouched(cfg: Config, refs: map<Bytes, Bytes>, dev: Device, req: GetRequest, dv: Versions,
                                  now: nat, named: set<(string, string)>, listed: set<string>)
    requires cfg.Valid() && RowsVouched(BuiltDevice(cfg, dev, req, dv, now).rows, named, listed)
    ensures RowsVouched(GetWithoutUpstream(cfg, refs, dev, req, dv, now).0.rows, named, listed)
  {
    var built := BuiltDocument(cfg, dev, req, dv, now);
    BuiltDocumentDevice(cfg, dev, req, dv, now);
    InDeploymentVouched(built.dev.rows, Delivered(cfg, refs, built), now, named, listed);
  }

  lemma GetWithUpstreamVouched(cfg: Config, refs: map<Bytes, Bytes>, dev: Device, req: GetRequest, dv: Versions,
                               reply: UpstreamReply, now: nat, named: set<(string, string)>, listed: set<string>)
    requires cfg.Valid() && RowsVouched(BuiltDevice(cfg, dev, req, dv, now).rows, named, listed)
    ensures RowsVouched(GetWithUpstream(cfg, refs, dev, req, dv, reply, now).0.rows, named, listed)
  {
    var built := BuiltDocument(cfg, dev, req, dv, now);
    BuiltDocumentDevice(cfg, dev, req, dv, now);
    forall doc: Rows ensures RowsVouched(WriteAll(built.dev.rows, InDeploymentWrites(doc, now)), named, listed) {
      InDeploymentVouched(built.dev.rows, doc, now, named, listed);
    }
    if reply.Replied? {
      forall doc: Rows
        ensures RowsVouched(WrittenFromUpstream(built.dev, reply.etag, FromParts(reply.parts), doc,
                                                built.docRoot.version, false, dv, now).rows,
                            named, listed)
      {
        UpstreamVouched(built.dev, reply.etag, FromParts(reply.parts), doc, built.docRoot.version, false, dv, now,
                        named, listed);
      }
    }
  }

  lemma ResetVouched(cfg: Config, refs: map<Bytes, Bytes>, dev: Device, meta: RootDoc, reply: UpstreamReply, now: nat,
                     named: set<(string, string)>, listed: set<string>)
    requires cfg.Valid() && RowsVouched(dev.rows, named, listed)
    ensures RowsVouched(FactoryReset(cfg, refs, dev, meta, reply, now).0.rows, named, listed)
  {
    var root := if dev.root.None? then meta else Updated(dev.root.value, meta);
    var dev1 := dev.(root := Some(StoredRoot(dev.root, root)));
    if reply.Replied? {
      UpstreamVouched(dev1, reply.etag, FromParts(reply.parts) - Keyed(cfg.blockedIds),
                      ReadDocument(dev.rows, false, now),
                      root.version, true, map[], now, named, listed);
    }
  }

  lemma GetVouched(cfg: Config, dev: Device, req: GetRequest, dv: Versions, refs: map<Bytes, Bytes>,
                   reply: UpstreamReply, now: nat, named: set<(string, string)>, listed: set<string>)
    requires cfg.Valid() && RowsVouched(dev.rows, named, listed) && Enabled(dev, Get(req, dv, refs, reply, now))
    ensures RowsVouched(Got(cfg, refs, dev, req, dv, reply, now).0.rows, named + PairsOf(req),
                        listed + BareVersionsOf(req))
  {
    if req.FactoryReset() {
      ResetVouched(cfg, refs, dev, req.meta, reply, now, named + PairsOf(req), listed + BareVersionsOf(req));
    } else {
      BuiltRowsVouched(cfg, dev, req, dv, now, named, listed);
      GetWithoutUpstreamVouched(cfg, refs, dev, req, dv, now, named + PairsOf(req), listed + BareVersionsOf(req));
      GetWithUpstreamVouched(cfg, refs, dev, req, dv, reply, now, named + PairsOf(req), listed + BareVersionsOf(req));
    }
  }

  lemma PokeVouched(cfg: Config, dev: Device, broker: BrokerReply, now: nat, named: set<(string, string)>,
                    listed: set<string>)
    requires RowsVouched(dev.rows, named, listed)
    ensures RowsVouched(Poked(cfg, dev, broker, now).0.rows, named, listed)
  {
  }

  lemma PrecookVouched(cfg: Config, refs: map<Bytes, Bytes>, dev: Device, tag: string, now: nat,
                       named: set<(string, string)>, listed: set<string>)
    requires RowsVouched(dev.rows, named, listed)
    ensures RowsVouched(PrecookStep(cfg, refs, dev, tag, now).0.rows, named, listed)
  {
  }

  lemma HandleVouched(cfg: Config, w: World, step: Step)
    requires cfg.Valid() && Safe(w) && Possible(w, Handle(step))
    ensures Safe(Moved(cfg, w, Handle(step)))
  {
    match step
    case Post(id, payload, version, header, expiry, now) =>
    case DeleteSub(id, now) =>
    case DeleteDoc(now) =>
    case Get(req, dv, refs, reply, now) => GetVouched(cfg, w.dev, req, dv, refs, reply, now, w.named, w.listed);
    case Report(m, now) =>
    case Poke(broker, now) => PokeVouched(cfg, w.dev, broker, now, w.named, w.listed);
    case Precook(refs, tag, now) => PrecookVouched(cfg, refs, w.dev, tag, now, w.named, w.listed);
  }

  lemma DeliverVouched(cfg: Config, w: World, m: EventMessage, now: nat)
    requires cfg.Valid() && Safe(w) && Possible(w, Deliver(m, now))
    ensures Safe(Moved(cfg, w, Deliver(m, now)))
  {
    assert PairOf(m) <= w.named;
  }

  /** In every state of every such run, a row marked deployed holds a version the device has named. */
  lemma {:induction false} DeployedVersionsWereNamed(cfg: Config, worlds: seq<World>, moves: seq<Move>, i: nat)
    requires cfg.Valid() && Run(cfg, worlds, moves) && i < |worlds|
    ensures Safe(worlds[i])
  {
    if i > 0 {
      DeployedVersionsWereNamed(cfg, worlds, moves, i - 1);
      match moves[i - 1]
      case Send(m) =>
      case Deliver(m, now) => DeliverVouched(cfg, worlds[i - 1], m, now);
      case Handle(step) => HandleVouched(cfg, worlds[i - 1], step);
    }
  }

  // ---------- why the restrictions are there ----------

  /** One delivered report deploys a row whose version it does not carry exactly when it is a success
      report without a version, for a row that is read in one of the four states. */
  lemma ReportDeploysUnnamedVersion(cfg: Config, dev: Device, m: EventMessage, now: nat, id: string)
    requires !m.IsHttp304() && id in dev.rows && dev.rows[id].GetState() != DEPLOYED
    ensures
      var row := Reported(cfg, dev, m, now).0.rows[id];
      row.GetState() == DEPLOYED && m.version != Some(row.GetVersion())
      <==>
      && m.IsSuccess() && m.version.None? && m.namespace == Some(id)
      && dev.rows[id].payload != [] && IsState(dev.rows[id].GetState())
  {
  }

  /** After a root 304 report a row is deployed exactly when it was visible or deployed before: the report
      compares no version. */
  lemma RootReportDeploysExactly(cfg: Config, dev: Device, m: EventMessage, now: nat, id: string)
    requires m.IsHttp304() && id in dev.rows
    ensures
      var rows := Reported(cfg, dev, m, now).0.rows;
      && id in rows
      && SameVersion(rows[id], dev.rows[id])
      && (rows[id].GetState() == DEPLOYED <==> Visible(dev.rows[id], false, now) || dev.rows[id].GetState() == DEPLOYED)
  {
    assert id in ReadDocument(dev.rows, false, now) <==> Visible(dev.rows[id], false, now);
  }

  predicate SameVersion(row: SubDocument, row': SubDocument) {
    row.GetVersion() == row'.GetVersion()
  }

  /** After a POST the row holds the posted version, and is deployed exactly when the header asks for that
      state, or asks for none and the row was deployed, with whatever version it then had. */
  lemma PostDeploysExactly(cfg: Config, dev: Device, id: string, payload: Bytes, version: string, header: StateHeader,
                           expiry: Option<int>, now: nat)
    ensures
      var row := Posted(cfg, dev, id, PostedRecord(payload, version, header, expiry, now), now).rows[id];
      && row.GetVersion() == version
      && (row.GetState() == DEPLOYED <==>
          header == StateNumber(DEPLOYED) || (header == StateNull && StateOf(dev.rows, id) == DEPLOYED))
  {
  }
}
