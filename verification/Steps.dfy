/** What each handler does to one device, as functions of the device. The methods of Service and
    Handlers are proved to do exactly this; the run properties are proved about these functions. */
module Steps {
  import opened Common
  import opened RootDocuments
  import opened Bitmaps
  import opened Documents
  import opened Store
  import opened CounterDrift
  import RootHash

  function Keyed(ids: seq<string>): set<string> {
    set id | id in ids
  }

  // ---------- state writes (db/service.go, db/cloud_input_mqtt.go) ----------

  /** A rootdoc report with status 304: every row that is not cleanly deployed. */
  function Http304Writes(doc: Rows, now: int): Rows {
    map id | id in doc && doc[id].NeedsUpdateForHttp304() :: StateRecord(DEPLOYED, now, Some(0), Some(""))
  }

  /** The device names the stored version of a row that is not marked deployed. */
  predicate NeedsCorrection(v: SubDocument, id: string, deviceVersions: Versions) {
    && v.GetVersion() != ""
    && v.GetVersion() == Lookup(deviceVersions, id, "")
    && PENDING_DOWNLOAD <= v.GetState() <= FAILURE
  }

  function Corrected(v: SubDocument, now: int): SubDocument {
    v.(state := Some(DEPLOYED),
       updatedTime := Some(now),
       errorCode := if v.errorCode.GetOr(0) > 0 then Some(0) else v.errorCode,
       errorDetails := if |v.errorDetails.GetOr("")| > 0 then Some("") else v.errorDetails)
  }

  function Corrections(doc: Rows, deviceVersions: Versions, now: int): Rows {
    map id | id in doc && NeedsCorrection(doc[id], id, deviceVersions) :: Corrected(doc[id], now)
  }

  /** The success messages announce exactly the corrected rows, each with the version it holds. */
  ghost predicate Announce(messages: Versions, corrected: Rows) {
    && (forall id :: id in messages <==> id in corrected)
    && (forall id :: id in messages ==> messages[id] == corrected[id].GetVersion())
  }

  predicate Delivering(state: int) {
    state == DEPLOYED || state == IN_DEPLOYMENT
  }

  /** The delivered rows that are neither deployed nor in deployment. */
  function InDeploymentWrites(doc: Rows, now: int): Rows {
    map id | id in doc && !Delivering(doc[id].GetState()) :: StateRecord(IN_DEPLOYMENT, now, Some(0), Some(""))
  }

  /** An mqtt poke sets the state and the time only; stored errors stay. */
  function PokeWrites(states: map<string, int>, now: int): Rows {
    map id | id in states :: StateRecord(IN_DEPLOYMENT, now, None, None)
  }

  // ---------- upstream write-back ----------

  /** Device, stored and new version all agree. */
  predicate Agreed(subdoc: SubDocument, doc: Rows, id: string, deviceVersions: Versions) {
    && id in deviceVersions && id in doc
    && subdoc.version == Some(deviceVersions[id])
    && doc[id].GetVersion() == deviceVersions[id]
  }

  function UpstreamRecord(subdoc: SubDocument, now: int): SubDocument {
    subdoc.(updatedTime := Some(now), state := Some(IN_DEPLOYMENT), errorCode := Some(0), errorDetails := Some(""))
  }

  function UpstreamWrites(newDoc: Rows, doc: Rows, deviceVersions: Versions, now: int): Rows {
    map id | id in newDoc && !Agreed(newDoc[id], doc, id, deviceVersions) :: UpstreamRecord(newDoc[id], now)
  }

  function WrittenFromUpstream(dev: Device, etag: string, newDoc: Rows, doc: Rows, docVersion: string, toDelete: bool,
                               deviceVersions: Versions, now: int): Device {
    var rows := WriteAll(dev.rows, UpstreamWrites(newDoc, doc, deviceVersions, now));
    Device(
      if toDelete then rows - (doc.Keys - newDoc.Keys) else rows,
      if docVersion != etag then Some(WithVersion(dev.root, etag)) else dev.root)
  }

  /** The states a write-back passes, and the rows it deletes. */
  function UpstreamStateWrites(newDoc: Rows, doc: Rows, toDelete: bool, deviceVersions: Versions,
                               now: int): StateWrites {
    StateWrites(UpstreamWrites(newDoc, doc, deviceVersions, now).Keys, doc,
                if toDelete then doc.Keys - newDoc.Keys else {})
  }

  // ---------- device reports ----------

  /** An event from a device. reports says that it carries a list of version reports. */
  datatype EventMessage = EventMessage(
    namespace: Option<string>,
    applicationStatus: Option<string>,
    errorCode: Option<int>,
    errorDetails: Option<string>,
    httpStatusCode: Option<int>,
    version: Option<string>,
    reports: bool,
    metricsAgent: Option<string>)
  {
    predicate IsHttp304() {
      !reports && httpStatusCode == Some(304)
    }

    predicate IsSuccess() {
      !reports && httpStatusCode.None? && namespace.Some? && applicationStatus == Some("success")
    }
  }

  datatype ReportResult = Done(updated: set<string>) | IllFormatted | StillPending | NotFound | InvalidState

  const MS_PER_DAY := 86_400_000

  function ReportRecord(cfg: Config, m: EventMessage, now: int): SubDocument {
    var deployed := m.applicationStatus == Some("success");
    var d := StateRecord(
      if deployed then DEPLOYED else FAILURE, now,
      if deployed then Some(0) else m.errorCode,
      if deployed then Some("") else m.errorDetails);
    if cfg.precook && m.namespace == Some("telemetry") && deployed && cfg.precookTtlDays > 0
    then d.(expiry := Some(now + cfg.precookTtlDays * MS_PER_DAY))
    else d
  }

  function Reported(cfg: Config, dev: Device, m: EventMessage, now: int): (Device, ReportResult) {
    if m.reports then (dev, Done({}))
    else if m.httpStatusCode.Some? then
      if m.httpStatusCode.value != 304 then (dev, Done({}))
      else
        var doc := ReadDocument(dev.rows, false, now);
        if doc == map[] then (dev, NotFound)
        else
          var writes := Http304Writes(doc, now);
          (dev.(rows := WriteAll(dev.rows, writes)), Done(writes.Keys))
    else if m.applicationStatus.None? || m.namespace.None? then (dev, IllFormatted)
    else if m.applicationStatus.value == "pending" then (dev, StillPending)
    else if m.namespace.value !in dev.rows || dev.rows[m.namespace.value].payload == [] then (dev, NotFound)
    else
      var subdoc := View(dev.rows[m.namespace.value]);
      if !IsState(subdoc.GetState()) then (dev, InvalidState)
      else if m.version.Some? && subdoc.version != m.version then (dev, Done({}))
      else (RowWritten(dev, m.namespace.value, ReportRecord(cfg, m, now)), Done({}))
  }

  // ---------- POST and DELETE ----------

  /** The X-Subdocument-State header. */
  datatype StateHeader = StateUnset | StateNull | StateNumber(i: int) | StateGarbage

  function PostedState(header: StateHeader): Option<int> {
    match header
    case StateNull => None
    case StateNumber(i) => Some(i)
    case _ => Some(PENDING_DOWNLOAD)
  }

  function PostedRecord(payload: Bytes, version: string, header: StateHeader, expiry: Option<int>,
                        now: int): SubDocument {
    SubDocument(payload, Some(version), PostedState(header), Some(now), Some(0), Some(""), expiry)
  }

  ghost function HashOf(cfg: Config, doc: Rows): string {
    RootHash.RootVersion(cfg.murmur, VersionMap(doc))
  }

  /** POST to one device: the row, then the root version of all rows, expired ones included. */
  ghost function Posted(cfg: Config, dev: Device, id: string, d: SubDocument, now: int): Device {
    var written := RowWritten(dev, id, d);
    var doc := ReadDocument(written.rows, true, now)[id := d];
    written.(root := Some(WithVersion(dev.root, HashOf(cfg, doc))))
  }

  /** DELETE re-reads without the expired rows. */
  ghost function Reindexed(cfg: Config, dev: Device, now: int): Device {
    var doc := ReadDocument(dev.rows, false, now);
    if doc == map[] then dev.(root := WithoutVersion(dev.root))
    else dev.(root := Some(WithVersion(dev.root, HashOf(cfg, doc))))
  }

  ghost function DeletedSubDocument(cfg: Config, dev: Device, id: string, now: int): Device {
    Reindexed(cfg, dev.(rows := dev.rows - {id}), now)
  }

  ghost function DeletedDocument(cfg: Config, dev: Device, now: int): Device {
    Reindexed(cfg, dev.(rows := map[]), now)
  }

  // ---------- config requests ----------

  /** A config request: the metadata of its headers (version, query parameters and lock empty), the
      subdocument ids it lists, the versions of If-None-Match, and whether the agent is mget. An
      empty list of ids is an absent header; the version list is never empty, since splitting an
      empty text gives one empty text. */
  datatype GetRequest = GetRequest(meta: RootDoc, docs: seq<string>, versions: seq<string>, mget: bool) {
    predicate WellFormed() {
      versions != [] && meta.bitmap >= 0 && meta.version == "" && meta.queryParams == "" && meta.lockedTill == 0
    }

    predicate Mismatched() {
      docs != [] && |docs| != |versions|
    }

    predicate FactoryReset() {
      versions == ["NONE"] || versions == ["NONE-REBOOT"]
    }
  }

  /** The pairs of a well-matched header; a later pair of the same id wins. */
  function Zip(ids: seq<string>, versions: seq<string>): Versions
    requires |ids| == |versions|
  {
    if ids == [] then map[]
    else
      var n := |ids| - 1;
      Zip(ids[..n], versions[..n])[ids[n] := versions[n]]
  }

  /** rev picks, for every version of cloud, one id that has it. */
  ghost predicate Reverses(rev: Versions, cloud: Versions) {
    && (forall v :: v in rev ==> rev[v] in cloud && cloud[rev[v]] == v)
    && (forall id :: id in cloud ==> cloud[id] in rev)
  }

  function RebuiltWith(versions: seq<string>, cloud: Versions, rev: Versions): Versions
    requires versions != []
  {
    map["root" := versions[0]] +
    map id | id in cloud && cloud[id] in versions && cloud[id] in rev && rev[cloud[id]] == id :: cloud[id]
  }

  /** The version maps RebuildDeviceVersionMap can return, over all orders of visiting cloud. */
  ghost predicate Rebuilt(versions: seq<string>, cloud: Versions, m: Versions) {
    versions != [] && exists rev :: Reverses(rev, cloud) && m == RebuiltWith(versions, cloud, rev)
  }

  /** The version maps the service can attribute to the device of a request. */
  ghost predicate DeviceVersions(req: GetRequest, rows: Rows, now: int, m: Versions) {
    if req.docs == [] then m == map[]
    else if |req.docs| == |req.versions| then m == Zip(req.docs, req.versions)
    else if ReadDocument(rows, false, now) == map[] then m == map[]
    else Rebuilt(req.versions, VersionMap(ReadDocument(rows, false, now)), m)
  }

  datatype GetError = NoError | DocNotFound | RootLocked

  /** What BuildGetDocument returns, and the device it leaves. */
  datatype Built = Built(dev: Device, doc: Rows, docRoot: RootDoc, oldRoot: Option<RootDoc>, newRoot: RootDoc,
                         postUpstream: bool, corrected: Rows, error: GetError)

  /** The root document in the store afterwards: created when missing, updated when its metadata
      differ, in both cases from a header document without a version. */
  function BuiltRoot(dev: Device, req: GetRequest): Option<RootDoc> {
    var created := if dev.root.None? then Some(StoredRoot(None, req.meta)) else dev.root;
    if dev.root.GetOr(req.meta).SameMetadata(req.meta) then created else Some(StoredRoot(created, req.meta))
  }

  /** The rows afterwards: corrected when state correction is on. */
  function BuiltRows(cfg: Config, rows: Rows, deviceVersions: Versions, now: int): Rows {
    if cfg.stateCorrection then WriteAll(rows, Corrections(ReadDocument(rows, false, now), deviceVersions, now))
    else rows
  }

  function BuiltDevice(cfg: Config, dev: Device, req: GetRequest, deviceVersions: Versions, now: int): Device {
    if req.Mismatched() && ReadDocument(dev.rows, false, now) == map[] then dev
    else Device(BuiltRows(cfg, dev.rows, deviceVersions, now), BuiltRoot(dev, req))
  }

  function BuiltDocument(cfg: Config, dev: Device, req: GetRequest, deviceVersions: Versions, now: int): Built {
    var readable := ReadDocument(dev.rows, false, now);
    var dev' := BuiltDevice(cfg, dev, req, deviceVersions, now);
    if req.Mismatched() && readable == map[] then
      Built(dev', map[], NO_ROOT, None, req.meta, false, map[], DocNotFound)
    else
      var device := req.meta.(version := Lookup(deviceVersions, "root", ""));
      var cloud := dev.root.GetOr(req.meta);
      var compared := if req.mget then VersionOnlyChanged else cloud.Compare(device);
      var corrected := if cfg.stateCorrection then Corrections(readable, deviceVersions, now) else map[];
      Selected(cfg, dev', readable, cloud, compared, device, deviceVersions, corrected, now)
  }

  /** The lock check and the switch on the comparison. readable was read before any correction. */
  function Selected(cfg: Config, dev: Device, readable: Rows, cloud: RootDoc, compared: RootComparison, device: RootDoc,
                    deviceVersions: Versions, corrected: Rows, now: int): Built {
    if cloud.Locked(now) && cfg.lockRootDocument then
      Built(dev, map[], NO_ROOT, Some(cloud), device, false, corrected, RootLocked)
    else if compared.RootEquals? then
      Built(dev, map[], cloud, Some(cloud), device, false, corrected, NoError)
    else if readable == map[] && !cfg.stateCorrection then
      Built(dev, map[], NO_ROOT, Some(cloud), device, false, corrected, DocNotFound)
    else if compared.MetaChanged? then
      Built(dev, readable, cloud, Some(cloud), device, true, corrected, NoError)
    else
      Built(dev, ForGet(readable, cloud.version, deviceVersions) - Keyed(cfg.blockedIds), cloud, Some(cloud), device,
            false, corrected, NoError)
  }

  predicate Resolvable(refs: map<Bytes, Bytes>, payload: Bytes) {
    RefId(payload).None? || Referenced(refs, RefId(payload).value).Some?
  }

  function Resolved(refs: map<Bytes, Bytes>, payload: Bytes): Bytes
    requires Resolvable(refs, payload)
  {
    if RefId(payload).None? then payload else Referenced(refs, RefId(payload).value).value
  }

  /** LoadRefSubDocuments: references are replaced, rows with a dangling reference dropped. */
  function WithReferences(refs: map<Bytes, Bytes>, doc: Rows): Rows {
    map id | id in doc && Resolvable(refs, doc[id].payload) :: doc[id].(payload := Resolved(refs, doc[id].payload))
  }

  datatype Response = Response(status: int, etag: string, parts: map<string, Multipart>)

  function Refusal(status: int): Response {
    Response(status, "", map[])
  }

  function Parts(doc: Rows): map<string, Multipart> {
    map id | id in doc :: Multipart(id, doc[id].GetVersion(), doc[id].payload)
  }

  function BitmapFiltered(cfg: Config, doc: Rows, bitmap: int): Rows
    requires IndexesValid(cfg.indexes)
  {
    if cfg.filterByBitmap then ByBitmap(doc, bitmap, cfg.indexes, cfg.exemptIds) else doc
  }

  /** The parts of a response without upstream, before and after the filters. */
  function Delivered(cfg: Config, refs: map<Bytes, Bytes>, built: Built): Rows
    requires IndexesValid(cfg.indexes)
  {
    var bitmap :=
      if built.postUpstream then MetadataUpdated(built.docRoot, built.newRoot).bitmap else built.docRoot.bitmap;
    BitmapFiltered(cfg, WithReferences(refs, built.doc - Keyed(cfg.blockedIds)), bitmap)
  }

  /** BuildWebconfigResponse after BuildGetDocument, with upstream switched off. */
  function AnswerWithoutUpstream(cfg: Config, refs: map<Bytes, Bytes>, built: Built, mget: bool, now: int)
    : (Device, Response)
    requires IndexesValid(cfg.indexes)
  {
    match built.error
    case RootLocked => (built.dev, Refusal(409))
    case DocNotFound => (built.dev, Refusal(404))
    case NoError =>
      if built.doc == map[] then (built.dev, Refusal(304))
      else
        var doc := Delivered(cfg, refs, built);
        if doc == map[] then (built.dev, Refusal(404))
        else
          (if mget then built.dev else built.dev.(rows := WriteAll(built.dev.rows, InDeploymentWrites(doc, now))),
           Response(200, built.docRoot.version, Parts(doc)))
  }

  /** GET config with upstream switched off. */
  function GetWithoutUpstream(cfg: Config, refs: map<Bytes, Bytes>, dev: Device, req: GetRequest,
                              deviceVersions: Versions, now: int): (Device, Response)
    requires IndexesValid(cfg.indexes)
  {
    AnswerWithoutUpstream(cfg, refs, BuiltDocument(cfg, dev, req, deviceVersions, now), req.mget, now)
  }

  /** The states those writes pass. */
  function StateWritesWithoutUpstream(cfg: Config, refs: map<Bytes, Bytes>, built: Built, mget: bool,
                                      now: int): StateWrites
    requires IndexesValid(cfg.indexes)
  {
    if built.error != NoError || mget then NO_WRITES
    else StateWrites(InDeploymentWrites(Delivered(cfg, refs, built), now).Keys, Delivered(cfg, refs, built), {})
  }

  /** What the upstream service answers; to an answer that is no multipart body the device gets the
      document that was sent upstream, with status 500. */
  datatype UpstreamReply =
    | Refused(status: int)
    | Unreachable
    | Unparsable
    | Replied(etag: string, parts: seq<Multipart>, skipDbUpdate: bool)

  /** The status of a request whose handler dereferences a nil root document. */
  const CRASHED := 0

  /** What a config request returns of an upstream answer. */
  function SentFromUpstream(cfg: Config, refs: map<Bytes, Bytes>, newDoc: Rows, etag: string, bitmap: int,
                            deviceVersions: Versions): Response
    requires IndexesValid(cfg.indexes)
  {
    var sent := BitmapFiltered(cfg, ForGet(newDoc, etag, deviceVersions) - Keyed(cfg.blockedIds), bitmap);
    if sent == map[] then Response(304, etag, map[]) else Response(200, etag, Parts(WithReferences(refs, sent)))
  }

  /** The end of BuildWebconfigResponse: doc is the document that went upstream. */
  function WrittenBack(cfg: Config, refs: map<Bytes, Bytes>, dev: Device, doc: Rows, docVersion: string,
                       oldRoot: Option<RootDoc>, newRoot: RootDoc, deviceVersions: Versions, etag: string,
                       parts: seq<Multipart>, skip: bool, now: int)
    : (Device, Response)
    requires IndexesValid(cfg.indexes)
  {
    if newRoot.bitmap == 0 && oldRoot.None? then (dev, Refusal(CRASHED))
    else
      (if skip then dev
       else WrittenFromUpstream(dev, etag, FromParts(parts), doc, docVersion, false, deviceVersions, now),
       SentFromUpstream(cfg, refs, FromParts(parts), etag,
                        if newRoot.bitmap != 0 then newRoot.bitmap else oldRoot.value.bitmap, deviceVersions))
  }

  /** A config request that is answered from the store although upstream is on. */
  function AnsweredLocally(cfg: Config, refs: map<Bytes, Bytes>, built: Built, mget: bool, now: int): (Device, Response)
    requires IndexesValid(cfg.indexes)
  {
    var doc := BitmapFiltered(cfg, WithReferences(refs, built.doc), built.docRoot.bitmap);
    if mget then
      (built.dev,
       Response(if built.doc != map[] then 200 else if built.docRoot.version == "" then 404 else 304,
                built.docRoot.version, Parts(doc)))
    else
      (built.dev.(rows := WriteAll(built.dev.rows, InDeploymentWrites(doc, now))),
       Response(if doc == map[] then 304 else 200, built.docRoot.version, Parts(doc)))
  }

  /** BuildWebconfigResponse after BuildGetDocument, with upstream switched on. */
  function AnswerWithUpstream(cfg: Config, refs: map<Bytes, Bytes>, built: Built, mget: bool, deviceVersions: Versions,
                              reply: UpstreamReply, now: int): (Device, Response)
    requires IndexesValid(cfg.indexes)
  {
    if built.error == RootLocked then (built.dev, Refusal(409))
    else if mget || (built.error == NoError && !built.postUpstream) then AnsweredLocally(cfg, refs, built, mget, now)
    else match reply
      case Refused(status) => (built.dev, Refusal(status))
      case Unreachable => (built.dev, Refusal(500))
      case Unparsable => (built.dev, Response(500, "", Parts(BitmapFiltered(cfg, built.doc, built.docRoot.bitmap))))
      case Replied(etag, parts, skip) =>
        WrittenBack(cfg, refs, built.dev, BitmapFiltered(cfg, built.doc, built.docRoot.bitmap), built.docRoot.version,
                    built.oldRoot,
                    built.newRoot, deviceVersions, etag, parts, skip, now)
  }

  /** GET config with upstream switched on. */
  function GetWithUpstream(cfg: Config, refs: map<Bytes, Bytes>, dev: Device, req: GetRequest, deviceVersions: Versions,
                           reply: UpstreamReply, now: int): (Device, Response)
    requires IndexesValid(cfg.indexes)
  {
    AnswerWithUpstream(cfg, refs, BuiltDocument(cfg, dev, req, deviceVersions, now), req.mget, deviceVersions, reply,
                       now)
  }

  /** The states its writes pass: those of a local answer, or those of a write-back. */
  function StateWritesWithUpstream(cfg: Config, refs: map<Bytes, Bytes>, built: Built, mget: bool,
                                   deviceVersions: Versions, reply: UpstreamReply, now: int): StateWrites
    requires IndexesValid(cfg.indexes)
  {
    if built.error == RootLocked || mget then NO_WRITES
    else if built.error == NoError && !built.postUpstream then
      var doc := BitmapFiltered(cfg, WithReferences(refs, built.doc), built.docRoot.bitmap);
      StateWrites(InDeploymentWrites(doc, now).Keys, doc, {})
    else if !reply.Replied? || reply.skipDbUpdate || (built.newRoot.bitmap == 0 && built.oldRoot.None?) then NO_WRITES
    else UpstreamStateWrites(FromParts(reply.parts), BitmapFiltered(cfg, built.doc, built.docRoot.bitmap), false,
                             deviceVersions, now)
  }

  // ---------- factory reset ----------

  /** The upstream answer to a factory reset replaces the document doc. */
  function ResetFromUpstream(cfg: Config, refs: map<Bytes, Bytes>, dev: Device, doc: Rows, root: RootDoc, etag: string,
                             parts: seq<Multipart>, skip: bool, now: int): (Device, Response)
    requires IndexesValid(cfg.indexes)
  {
    var newDoc := FromParts(parts) - Keyed(cfg.blockedIds);
    (if skip then dev else WrittenFromUpstream(dev, etag, newDoc, doc, root.version, true, map[], now),
     if newDoc == map[] then Response(404, etag, map[])
     else Response(200, etag, Parts(BitmapFiltered(cfg, WithReferences(refs, newDoc), root.bitmap))))
  }

  /** A reset from the stored root document on. */
  function RowsReset(cfg: Config, refs: map<Bytes, Bytes>, dev: Device, root: RootDoc, reply: UpstreamReply, now: int)
    : (Device, Response)
    requires IndexesValid(cfg.indexes)
  {
    var doc := ReadDocument(dev.rows, false, now);
    if doc == map[] then (dev, Refusal(404))
    else if !cfg.upstream then (dev.(rows := map[]), Refusal(404))
    else match reply
      case Refused(status) => (dev, Refusal(status))
      case Unreachable => (dev, Refusal(500))
      case Unparsable => (dev, Response(500, "", Parts(doc)))
      case Replied(etag, parts, skip) => ResetFromUpstream(cfg, refs, dev, doc, root, etag, parts, skip, now)
  }

  function FactoryReset(cfg: Config, refs: map<Bytes, Bytes>, dev: Device, meta: RootDoc, reply: UpstreamReply,
                        now: int)
    : (Device, Response)
    requires IndexesValid(cfg.indexes)
  {
    var root := if dev.root.None? then meta else Updated(dev.root.value, meta);
    RowsReset(cfg, refs, dev.(root := Some(StoredRoot(dev.root, root))), root, reply, now)
  }

  /** The states a reset passes, and the rows it deletes. */
  function ResetStateWrites(cfg: Config, dev: Device, reply: UpstreamReply, now: int): StateWrites {
    var doc := ReadDocument(dev.rows, false, now);
    if doc == map[] then NO_WRITES
    else if !cfg.upstream then StateWrites({}, map[], dev.rows.Keys)
    else if !reply.Replied? || reply.skipDbUpdate then NO_WRITES
    else UpstreamStateWrites(FromParts(reply.parts) - Keyed(cfg.blockedIds), doc, true, map[], now)
  }

  /** The state writes of a config request, after any correction. */
  function GetStateWrites(cfg: Config, refs: map<Bytes, Bytes>, dev: Device, req: GetRequest, deviceVersions: Versions,
                          reply: UpstreamReply, now: int): StateWrites
    requires IndexesValid(cfg.indexes)
  {
    var built := BuiltDocument(cfg, dev, req, deviceVersions, now);
    if req.FactoryReset() then ResetStateWrites(cfg, dev, reply, now)
    else if cfg.upstream then StateWritesWithUpstream(cfg, refs, built, req.mget, deviceVersions, reply, now)
    else StateWritesWithoutUpstream(cfg, refs, built, req.mget, now)
  }

  /** The rows they write to: a reset corrects nothing. */
  function RowsBeforeStateWrites(cfg: Config, dev: Device, req: GetRequest, deviceVersions: Versions, now: int): Rows {
    if req.FactoryReset() then dev.rows else BuiltDevice(cfg, dev, req, deviceVersions, now).rows
  }

  /** MultipartConfigHandler on a primary request. */
  function Got(cfg: Config, refs: map<Bytes, Bytes>, dev: Device, req: GetRequest, deviceVersions: Versions,
               reply: UpstreamReply, now: int): (Device, Response)
    requires IndexesValid(cfg.indexes)
  {
    if req.FactoryReset() then FactoryReset(cfg, refs, dev, req.meta, reply, now)
    else if cfg.upstream then GetWithUpstream(cfg, refs, dev, req, deviceVersions, reply, now)
    else GetWithoutUpstream(cfg, refs, dev, req, deviceVersions, now)
  }

  // ---------- mqtt poke ----------

  /** The document an mqtt poke sends; None is not-found. */
  function PokeDocument(cfg: Config, dev: Device, now: int): Option<Rows> {
    var doc := ReadDocument(dev.rows, false, now);
    var pending := ForMqttSend(doc);
    if doc == map[] then None
    else if pending == map[] then Some(pending)
    else if dev.root.None? then None
    else Some(pending - Keyed(cfg.blockedIds))
  }

  /** What the mqtt broker answers. */
  datatype BrokerReply = Taken | RefusedBy(status: int) | NoBroker

  function Poked(cfg: Config, dev: Device, reply: BrokerReply, now: int): (Device, int) {
    var doc := PokeDocument(cfg, dev, now);
    if doc.None? then (dev, 404)
    else if doc.value == map[] then (dev, 204)
    else match reply
      case RefusedBy(status) => (dev, status)
      case NoBroker => (dev, 500)
      case Taken => (dev.(rows := WriteAll(dev.rows, PokeWrites(StateMap(doc.value), now))), 202)
  }

  // ---------- the supplementary precook branch ----------

  datatype PrecookResult = Precooked(response: Response) | GoOn

  function PrecookRow(row: SubDocument, now: int): SubDocument {
    var written := Upsert(row, StateRecord(IN_DEPLOYMENT, now, Some(0), Some("")));
    written.(expiry := if View(row).expiry.Some? then None else written.expiry, errorCode := None, errorDetails := None)
  }

  /** The telemetry row decides: deployed and unexpired is 304; a row that still has to reach the
      device is delivered under a random tag; anything else goes on to the profile source. */
  function PrecookStep(cfg: Config, refs: map<Bytes, Bytes>, dev: Device, tag: string, now: int)
    : (Device, PrecookResult)
  {
    var subdoc := SubDocumentRead(dev.rows, refs, "telemetry");
    if !cfg.precook || subdoc.None? then (dev, GoOn)
    else if subdoc.value.GetState() == DEPLOYED then
      if subdoc.value.expiry.Some? && subdoc.value.expiry.value <= now then (dev, GoOn)
      else (dev, Precooked(Refusal(304)))
    else if PENDING_DOWNLOAD <= subdoc.value.GetState() <= FAILURE && subdoc.value.payload != [] then
      (dev.(rows := dev.rows["telemetry" := PrecookRow(dev.rows["telemetry"], now)]),
       Precooked(Response(200, tag, Parts(map["telemetry" := subdoc.value]))))
    else (dev, GoOn)
  }
}
