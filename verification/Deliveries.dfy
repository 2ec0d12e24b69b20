/** What a config request delivers, which rows it touches, and that it converges. */
module Deliveries {
  import opened Common
  import opened RootDocuments
  import opened Documents
  import opened Store
  import opened Steps
  import opened Machine

  // ---------- exactly the right parts, exactly the right rows ----------

  /** The root document is locked against the request. */
  predicate LockedOut(cfg: Config, dev: Device, req: GetRequest, now: int) {
    cfg.lockRootDocument && dev.root.GetOr(req.meta).Locked(now)
  }

  /** How the stored root document compares with what the request shows of the device's. */
  function Comparison(dev: Device, req: GetRequest, dv: Versions): RootComparison {
    dev.root.GetOr(req.meta).Compare(req.meta.(version := Lookup(dv, "root", "")))
  }

  /** A reset asks upstream when some row is visible. Another request does, unless the agent is mget, when its
      lists mismatch and no row is visible; or when it is not locked out, and the metadata changed, or the root
      versions differ, no row is visible and correction is off. */
  predicate AsksUpstream(cfg: Config, dev: Device, req: GetRequest, dv: Versions, now: int) {
    var nothingVisible := ReadDocument(dev.rows, false, now) == map[];
    if req.FactoryReset() then !nothingVisible
    else
      && !req.mget
      && (|| (req.Mismatched() && nothingVisible)
          || (&& !LockedOut(cfg, dev, req, now)
              && (|| Comparison(dev, req, dv).MetaChanged?
                  || (!Comparison(dev, req, dv).RootEquals? && nothingVisible && !cfg.stateCorrection))))
  }

  /** The same, read off the document built. */
  lemma BuiltAsks(cfg: Config, dev: Device, req: GetRequest, dv: Versions, now: nat)
    requires !req.FactoryReset()
    ensures
      var built := BuiltDocument(cfg, dev, req, dv, now);
      AsksUpstream(cfg, dev, req, dv, now) <==>
        built.error != RootLocked && !req.mget && (built.error == DocNotFound || built.postUpstream)
  {
  }

  /** The request is no reset, and its answer comes from the store. */
  predicate FromStore(cfg: Config, dev: Device, req: GetRequest, dv: Versions, now: int) {
    !req.FactoryReset() && !(cfg.upstream && AsksUpstream(cfg, dev, req, dv, now))
  }

  /** The parts of a 200 from the store, with state correction on or off: visible rows that are stale
      for the device (all of them when the metadata changed), not blocked, with a resolvable
      reference, and supported or exempt when the bitmap filter is on. */
  ghost predicate Wanted(cfg: Config, refs: map<Bytes, Bytes>, dev: Device, req: GetRequest, dv: Versions, now: int,
                         id: string)
    requires cfg.Valid()
  {
    var cloud := dev.root.GetOr(req.meta);
    var metaChanged := !req.mget && Comparison(dev, req, dv).MetaChanged?;
    var bitmap := if metaChanged && req.meta.bitmap > 0 then req.meta.bitmap else cloud.bitmap;
    && id in dev.rows
    && Visible(dev.rows[id], false, now)
    && (metaChanged || (!RootVersionMatches(cloud.version, dv) && dev.rows[id].GetVersion() != Lookup(dv, id, "")))
    && id !in cfg.blockedIds
    && Resolvable(refs, dev.rows[id].payload)
    && (cfg.filterByBitmap ==> SupportedOrExempt(cfg.indexes, bitmap, cfg.exemptIds, id))
  }

  lemma SelectedOutcome(cfg: Config, dev: Device, readable: Rows, cloud: RootDoc, compared: RootComparison,
                        device: RootDoc, dv: Versions, corrected: Rows, now: int)
    ensures
      var built := Selected(cfg, dev, readable, cloud, compared, device, dv, corrected, now);
      && built.dev == dev
      && built.oldRoot == Some(cloud)
      && built.newRoot == device
      && (built.error == NoError ==> built.docRoot == cloud && !(cloud.Locked(now) && cfg.lockRootDocument))
  {
  }

  /** Only the mismatched request of a device without visible rows returns no root document. */
  lemma BuiltRoots(cfg: Config, dev: Device, req: GetRequest, dv: Versions, now: nat)
    ensures
      var built := BuiltDocument(cfg, dev, req, dv, now);
      && (built.oldRoot.None? <==> req.Mismatched() && ReadDocument(dev.rows, false, now) == map[])
      && (built.oldRoot.None? ==> built.error == DocNotFound)
      && built.newRoot.bitmap == req.meta.bitmap
  {
    var readable := ReadDocument(dev.rows, false, now);
    var device := req.meta.(version := Lookup(dv, "root", ""));
    var cloud := dev.root.GetOr(req.meta);
    SelectedOutcome(cfg, BuiltDevice(cfg, dev, req, dv, now), readable, cloud,
                    if req.mget then VersionOnlyChanged else cloud.Compare(device), device, dv,
                    if cfg.stateCorrection then Corrections(readable, dv, now) else map[], now);
  }

  lemma BuiltOutcome(cfg: Config, dev: Device, req: GetRequest, dv: Versions, now: nat)
    ensures
      var built := BuiltDocument(cfg, dev, req, dv, now);
      built.error == NoError ==>
        && built.dev.root == BuiltRoot(dev, req)
        && built.docRoot == dev.root.GetOr(req.meta)
        && !LockedOut(cfg, dev, req, now)
  {
    var readable := ReadDocument(dev.rows, false, now);
    var device := req.meta.(version := Lookup(dv, "root", ""));
    var cloud := dev.root.GetOr(req.meta);
    SelectedOutcome(cfg, BuiltDevice(cfg, dev, req, dv, now), readable, cloud,
                    if req.mget then VersionOnlyChanged else cloud.Compare(device), device, dv,
                    if cfg.stateCorrection then Corrections(readable, dv, now) else map[], now);
  }

  /** The document a request selects, by the one it read. */
  lemma SelectedDoc(cfg: Config, dev: Device, readable: Rows, cloud: RootDoc, compared: RootComparison, device: RootDoc,
                    dv: Versions, corrected: Rows, now: int, id: string)
    ensures
      var built := Selected(cfg, dev, readable, cloud, compared, device, dv, corrected, now);
      && built.dev == dev
      && (id in built.doc ==> id in readable && built.doc[id] == readable[id])
      && (built.error == NoError ==>
            && built.docRoot == cloud
            && built.newRoot == device
            && built.postUpstream == compared.MetaChanged?
            && (id in built.doc && id !in cfg.blockedIds <==>
                && id in readable && id !in cfg.blockedIds && !compared.RootEquals?
                && (compared.MetaChanged? || (!RootVersionMatches(cloud.version, dv) && Stale(readable[id], id, dv)))))
  {
  }

  /** A request's document, by the one it read: the read comes before any correction. */
  lemma BuiltDocOf(cfg: Config, dev: Device, req: GetRequest, dv: Versions, now: nat, id: string)
    ensures
      var built := BuiltDocument(cfg, dev, req, dv, now);
      var readable := ReadDocument(dev.rows, false, now);
      var cloud := dev.root.GetOr(req.meta);
      var compared := if req.mget then VersionOnlyChanged else Comparison(dev, req, dv);
      && (id in built.doc ==> id in readable && built.doc[id] == readable[id])
      && (built.error == NoError ==>
            && built.docRoot == cloud
            && built.newRoot.bitmap == req.meta.bitmap
            && built.postUpstream == compared.MetaChanged?
            && (id in built.doc && id !in cfg.blockedIds <==>
                && id in readable && id !in cfg.blockedIds && !compared.RootEquals?
                && (compared.MetaChanged? || (!RootVersionMatches(cloud.version, dv) && Stale(readable[id], id, dv)))))
  {
    var readable := ReadDocument(dev.rows, false, now);
    var device := req.meta.(version := Lookup(dv, "root", ""));
    var cloud := dev.root.GetOr(req.meta);
    SelectedDoc(cfg, BuiltDevice(cfg, dev, req, dv, now), readable, cloud,
                if req.mget then VersionOnlyChanged else cloud.Compare(device), device, dv,
                if cfg.stateCorrection then Corrections(readable, dv, now) else map[], now, id);
  }

  /** One row through the filters of a response. */
  lemma DeliveredIs(cfg: Config, refs: map<Bytes, Bytes>, built: Built, id: string)
    requires cfg.Valid()
    ensures
      var bitmap :=
        if built.postUpstream then MetadataUpdated(built.docRoot, built.newRoot).bitmap else built.docRoot.bitmap;
      var doc := Delivered(cfg, refs, built);
      && (id in doc <==>
          && id in built.doc && id !in cfg.blockedIds && Resolvable(refs, built.doc[id].payload)
          && (cfg.filterByBitmap ==> SupportedOrExempt(cfg.indexes, bitmap, cfg.exemptIds, id)))
      && (id in doc ==> doc[id] == built.doc[id].(payload := Resolved(refs, built.doc[id].payload)))
  {
  }

  lemma WantedAreDelivered(cfg: Config, refs: map<Bytes, Bytes>, dev: Device, req: GetRequest, dv: Versions, now: nat,
                           id: string)
    requires cfg.Valid()
    requires BuiltDocument(cfg, dev, req, dv, now).error == NoError
    ensures
      var doc := Delivered(cfg, refs, BuiltDocument(cfg, dev, req, dv, now));
      && (id in doc <==> Wanted(cfg, refs, dev, req, dv, now, id))
      && (id in doc ==> doc[id] == View(dev.rows[id]).(payload := Resolved(refs, dev.rows[id].payload)))
  {
    BuiltDocOf(cfg, dev, req, dv, now, id);
    DeliveredIs(cfg, refs, BuiltDocument(cfg, dev, req, dv, now), id);
  }

  /** The row a delivery leaves behind, by the state its document shows: only a row shown as neither
      deployed nor in deployment changes, and it becomes in-deployment with its errors cleared. */
  function AfterDelivery(row: SubDocument, shown: int, now: int): SubDocument {
    if Delivering(shown) then row
    else row.(state := Some(IN_DEPLOYMENT), updatedTime := Some(now), errorCode := Some(0), errorDetails := Some(""))
  }

  lemma DeliveryTouchesOnlyItsRows(rows: Rows, doc: Rows, now: int)
    requires forall id :: id in doc ==> id in rows
    ensures
      var rows' := WriteAll(rows, InDeploymentWrites(doc, now));
      && rows'.Keys == rows.Keys
      && forall id :: id in rows ==>
           rows'[id] == if id in doc then AfterDelivery(rows[id], doc[id].GetState(), now) else rows[id]
  {
  }

  /** How a response without upstream follows from the built document. */
  lemma ResponseOf(cfg: Config, refs: map<Bytes, Bytes>, built: Built, mget: bool, now: nat)
    requires cfg.Valid()
    ensures
      var (dev', r) := AnswerWithoutUpstream(cfg, refs, built, mget, now);
      && dev'.root == built.dev.root
      && (r.status == 200 <==> built.error == NoError && built.doc != map[] && Delivered(cfg, refs, built) != map[])
      && (r.status != 200 ==> r.parts == map[] && dev' == built.dev)
      && (r.status == 200 ==>
            && r.etag == built.docRoot.version
            && r.parts == Parts(Delivered(cfg, refs, built))
            && dev'.rows == if mget then built.dev.rows
                            else WriteAll(built.dev.rows, InDeploymentWrites(Delivered(cfg, refs, built), now)))
  {
  }

  lemma DeliveredIsOfDoc(cfg: Config, refs: map<Bytes, Bytes>, built: Built)
    requires cfg.Valid()
    ensures forall id :: id in Delivered(cfg, refs, built) ==>
              id in built.doc && Delivered(cfg, refs, built)[id].GetState() == built.doc[id].GetState()
  {
  }

  /** What a response does to one row. */
  function RowAfter(built: Built, id: string, sent: bool, now: int): SubDocument
    requires id in built.dev.rows && (sent ==> id in built.doc)
  {
    if sent then AfterDelivery(built.dev.rows[id], built.doc[id].GetState(), now) else built.dev.rows[id]
  }

  lemma DeliveryIsRowAfter(cfg: Config, refs: map<Bytes, Bytes>, built: Built, now: nat)
    requires cfg.Valid()
    requires forall id :: id in built.doc ==> id in built.dev.rows
    ensures
      var doc := Delivered(cfg, refs, built);
      && (forall id :: id in doc ==> id in built.doc)
      && WriteAll(built.dev.rows, InDeploymentWrites(doc, now)).Keys == built.dev.rows.Keys
      && forall id :: id in built.dev.rows ==>
           WriteAll(built.dev.rows, InDeploymentWrites(doc, now))[id] == RowAfter(built, id, id in doc, now)
  {
    DeliveredIsOfDoc(cfg, refs, built);
    DeliveryTouchesOnlyItsRows(built.dev.rows, Delivered(cfg, refs, built), now);
  }

  lemma ResponseTouches(cfg: Config, refs: map<Bytes, Bytes>, built: Built, mget: bool, now: nat)
    requires cfg.Valid()
    requires forall id :: id in built.doc ==> id in built.dev.rows
    ensures
      var (dev', r) := AnswerWithoutUpstream(cfg, refs, built, mget, now);
      && (forall id :: id in r.parts ==> id in built.doc)
      && dev'.rows.Keys == built.dev.rows.Keys
      && forall id :: id in built.dev.rows ==> dev'.rows[id] == RowAfter(built, id, id in r.parts && !mget, now)
  {
    ResponseOf(cfg, refs, built, mget, now);
    DeliveredIsOfDoc(cfg, refs, built);
    DeliveryIsRowAfter(cfg, refs, built, now);
  }

  lemma NoPartNo200(cfg: Config, refs: map<Bytes, Bytes>, dev: Device, req: GetRequest, dv: Versions, now: nat)
    requires cfg.Valid()
    ensures
      var (dev', r) := GetWithoutUpstream(cfg, refs, dev, req, dv, now);
      if r.status == 200 then r.parts != map[] else dev'.rows == BuiltRows(cfg, dev.rows, dv, now)
  {
    BuiltDeviceRows(cfg, dev, req, dv, now);
    ResponseOf(cfg, refs, BuiltDocument(cfg, dev, req, dv, now), req.mget, now);
  }

  /** With upstream on, an answer from the store has the device and the parts it would have with upstream off;
      an mget agent may get its 200 without a part. */
  lemma StoreAnswer(cfg: Config, refs: map<Bytes, Bytes>, dev: Device, req: GetRequest, dv: Versions,
                    reply: UpstreamReply, now: nat)
    requires cfg.Valid() && FromStore(cfg, dev, req, dv, now)
    ensures
      var built := BuiltDocument(cfg, dev, req, dv, now);
      var (devW, rW) := GetWithoutUpstream(cfg, refs, dev, req, dv, now);
      var (dev', r) := Got(cfg, refs, dev, req, dv, reply, now);
      && dev' == devW
      && r.parts == rW.parts
      && (rW.status == 200 || !cfg.upstream ==> r == rW)
      && (r.status == 200 && !(cfg.upstream && req.mget) ==> rW.status == 200)
      && (cfg.upstream && !req.mget && rW.status in {304, 404} ==> r.status == 304)
      && (r.status == 200 ==>
            built.error == NoError && r.etag == built.docRoot.version && r.parts == Parts(Delivered(cfg, refs, built)))
  {
    if cfg.upstream {
      BuiltAsks(cfg, dev, req, dv, now);
      BuiltUnblocked(cfg, dev, req, dv, now);
      MgetStaysHere(cfg, dev, req, dv, now);
      LocalAnswer(cfg, refs, BuiltDocument(cfg, dev, req, dv, now), req.mget, dv, reply, now);
    } else {
      ResponseOf(cfg, refs, BuiltDocument(cfg, dev, req, dv, now), req.mget, now);
    }
  }

  lemma SelectedUnblocked(cfg: Config, dev: Device, readable: Rows, cloud: RootDoc, compared: RootComparison,
                          device: RootDoc, dv: Versions, corrected: Rows, now: int)
    ensures
      var built := Selected(cfg, dev, readable, cloud, compared, device, dv, corrected, now);
      && (built.error != NoError ==> built.doc == map[] && !built.postUpstream)
      && (!built.postUpstream ==> built.doc - Keyed(cfg.blockedIds) == built.doc)
  {
  }

  /** A document that does not go upstream is without blocked rows already. */
  lemma BuiltUnblocked(cfg: Config, dev: Device, req: GetRequest, dv: Versions, now: nat)
    ensures
      var built := BuiltDocument(cfg, dev, req, dv, now);
      && (built.error != NoError ==> built.doc == map[] && !built.postUpstream)
      && (!built.postUpstream ==> built.doc - Keyed(cfg.blockedIds) == built.doc)
  {
    var readable := ReadDocument(dev.rows, false, now);
    var device := req.meta.(version := Lookup(dv, "root", ""));
    var cloud := dev.root.GetOr(req.meta);
    SelectedUnblocked(cfg, BuiltDevice(cfg, dev, req, dv, now), readable, cloud,
                      if req.mget then VersionOnlyChanged else cloud.Compare(device), device, dv,
                      if cfg.stateCorrection then Corrections(readable, dv, now) else map[], now);
  }

  lemma MgetStaysHere(cfg: Config, dev: Device, req: GetRequest, dv: Versions, now: nat)
    ensures req.mget ==> !BuiltDocument(cfg, dev, req, dv, now).postUpstream
  {
  }

  lemma LocalAnswer(cfg: Config, refs: map<Bytes, Bytes>, built: Built, mget: bool, dv: Versions,
                    reply: UpstreamReply, now: nat)
    requires cfg.Valid()
    requires built.error == RootLocked || mget || (built.error == NoError && !built.postUpstream)
    requires built.error != NoError ==> built.doc == map[]
    requires !built.postUpstream && built.doc - Keyed(cfg.blockedIds) == built.doc
    ensures
      var (devW, rW) := AnswerWithoutUpstream(cfg, refs, built, mget, now);
      var (dev', r) := AnswerWithUpstream(cfg, refs, built, mget, dv, reply, now);
      && dev' == devW
      && r.parts == rW.parts
      && (rW.status == 200 ==> r == rW)
      && (r.status == 200 && !mget ==> rW.status == 200)
      && (!mget && rW.status in {304, 404} ==> r.status == 304)
      && (r.status == 200 ==>
            built.error == NoError && r.etag == built.docRoot.version && r.parts == Parts(Delivered(cfg, refs, built)))
  {
    var doc := Delivered(cfg, refs, built);
    if doc == map[] {
      assert WriteAll(built.dev.rows, InDeploymentWrites(doc, now)) == built.dev.rows;
      assert Parts(doc) == map[];
    }
    assert built.doc == map[] ==> doc == map[];
  }

  lemma DeliveredParts(cfg: Config, refs: map<Bytes, Bytes>, dev: Device, req: GetRequest, dv: Versions, now: nat)
    requires cfg.Valid()
    requires BuiltDocument(cfg, dev, req, dv, now).error == NoError
    ensures
      var parts := Parts(Delivered(cfg, refs, BuiltDocument(cfg, dev, req, dv, now)));
      && (forall id :: id in parts <==> Wanted(cfg, refs, dev, req, dv, now, id))
      && (forall id :: id in parts ==>
            parts[id] == Multipart(id, dev.rows[id].GetVersion(), Resolved(refs, dev.rows[id].payload)))
  {
    var doc := Delivered(cfg, refs, BuiltDocument(cfg, dev, req, dv, now));
    forall id
      ensures id in doc <==> Wanted(cfg, refs, dev, req, dv, now, id)
      ensures id in doc ==> doc[id] == View(dev.rows[id]).(payload := Resolved(refs, dev.rows[id].payload))
    {
      WantedAreDelivered(cfg, refs, dev, req, dv, now, id);
    }
  }

  /** A 200 from the store carries exactly the wanted rows, each with its stored version and its resolved
      payload, and the stored root version as its tag. */
  lemma GetDeliversExactlyTheWanted(cfg: Config, refs: map<Bytes, Bytes>, dev: Device, req: GetRequest, dv: Versions,
                                    reply: UpstreamReply, now: nat)
    requires cfg.Valid() && FromStore(cfg, dev, req, dv, now)
    ensures
      var r := Got(cfg, refs, dev, req, dv, reply, now).1;
      r.status == 200 ==>
      && r.etag == dev.root.GetOr(req.meta).version
      && (forall id :: id in r.parts <==> Wanted(cfg, refs, dev, req, dv, now, id))
      && (forall id :: id in r.parts ==>
            r.parts[id] == Multipart(id, dev.rows[id].GetVersion(), Resolved(refs, dev.rows[id].payload)))
  {
    StoreAnswer(cfg, refs, dev, req, dv, reply, now);
    if Got(cfg, refs, dev, req, dv, reply, now).1.status == 200 {
      BuiltOutcome(cfg, dev, req, dv, now);
      DeliveredParts(cfg, refs, dev, req, dv, now);
    }
  }

  /** An answer from the store is 200 exactly when the root document is not locked and some row is wanted; only
      with upstream on can an mget agent get a 200 without a part. */
  lemma GetAnswers200Exactly(cfg: Config, refs: map<Bytes, Bytes>, dev: Device, req: GetRequest, dv: Versions,
                             reply: UpstreamReply, now: nat)
    requires cfg.Valid() && FromStore(cfg, dev, req, dv, now) && !(cfg.upstream && req.mget)
    ensures Got(cfg, refs, dev, req, dv, reply, now).1.status == 200
            <==> !LockedOut(cfg, dev, req, now) && exists id :: Wanted(cfg, refs, dev, req, dv, now, id)
  {
    StoreAnswer(cfg, refs, dev, req, dv, reply, now);
    NoPartNo200(cfg, refs, dev, req, dv, now);
    BuiltOutcome(cfg, dev, req, dv, now);
    if GetWithoutUpstream(cfg, refs, dev, req, dv, now).1.status == 200 {
      var id :| id in GetWithoutUpstream(cfg, refs, dev, req, dv, now).1.parts;
      GetDeliversExactlyTheWanted(cfg, refs, dev, req, dv, reply, now);
    } else if id :| Wanted(cfg, refs, dev, req, dv, now, id) {
      WantedIsDelivered(cfg, refs, dev, req, dv, now, id);
    }
  }

  /** With upstream on an mget agent gets 200 exactly when the root document is not locked and some visible row,
      not blocked, is stale: whether a filter takes it out of the answer does not matter. */
  lemma MgetAnswers200Exactly(cfg: Config, refs: map<Bytes, Bytes>, dev: Device, req: GetRequest, dv: Versions,
                              reply: UpstreamReply, now: nat)
    requires cfg.Valid() && cfg.upstream && req.mget && !req.FactoryReset()
    ensures Got(cfg, refs, dev, req, dv, reply, now).1.status == 200
            <==> !LockedOut(cfg, dev, req, now) && exists id :: StaleHere(cfg, dev, req, dv, now, id)
  {
    var built := BuiltDocument(cfg, dev, req, dv, now);
    MgetStaysHere(cfg, dev, req, dv, now);
    BuiltUnblocked(cfg, dev, req, dv, now);
    BuiltOutcome(cfg, dev, req, dv, now);
    StaleMakesNoError(cfg, dev, req, dv, now);
    forall id ensures built.error == NoError ==> (id in built.doc <==> StaleHere(cfg, dev, req, dv, now, id)) {
      BuiltDocOf(cfg, dev, req, dv, now, id);
    }
    assert Got(cfg, refs, dev, req, dv, reply, now).1.status == 200 <==> built.error == NoError && built.doc != map[];
    if built.doc != map[] {
      var id :| id in built.doc;
    }
  }

  predicate StaleHere(cfg: Config, dev: Device, req: GetRequest, dv: Versions, now: int, id: string) {
    && id in dev.rows && Visible(dev.rows[id], false, now) && id !in cfg.blockedIds
    && !RootVersionMatches(dev.root.GetOr(req.meta).version, dv) && dev.rows[id].GetVersion() != Lookup(dv, id, "")
  }

  lemma StaleMakesNoError(cfg: Config, dev: Device, req: GetRequest, dv: Versions, now: nat)
    ensures (exists id :: StaleHere(cfg, dev, req, dv, now, id)) ==>
              BuiltDocument(cfg, dev, req, dv, now).error == NoError || LockedOut(cfg, dev, req, now)
  {
    if id :| StaleHere(cfg, dev, req, dv, now, id) {
      assert id in ReadDocument(dev.rows, false, now);
    }
  }

  lemma WantedIsDelivered(cfg: Config, refs: map<Bytes, Bytes>, dev: Device, req: GetRequest, dv: Versions, now: nat,
                          id: string)
    requires cfg.Valid() && Wanted(cfg, refs, dev, req, dv, now, id)
    ensures LockedOut(cfg, dev, req, now) || GetWithoutUpstream(cfg, refs, dev, req, dv, now).1.status == 200
  {
    WantedMakesNoError(cfg, refs, dev, req, dv, now, id);
    ResponseOf(cfg, refs, BuiltDocument(cfg, dev, req, dv, now), req.mget, now);
    if BuiltDocument(cfg, dev, req, dv, now).error == NoError {
      WantedAreDelivered(cfg, refs, dev, req, dv, now, id);
      DeliveredIsOfDoc(cfg, refs, BuiltDocument(cfg, dev, req, dv, now));
    }
  }

  /** A wanted row is visible, so only a lock can refuse the request. */
  lemma WantedMakesNoError(cfg: Config, refs: map<Bytes, Bytes>, dev: Device, req: GetRequest, dv: Versions, now: nat,
                           id: string)
    requires cfg.Valid() && Wanted(cfg, refs, dev, req, dv, now, id)
    ensures BuiltDocument(cfg, dev, req, dv, now).error == NoError
            || LockedOut(cfg, dev, req, now)
  {
    assert id in ReadDocument(dev.rows, false, now);
  }

  /** Exactly the delivered rows that were stored neither deployed nor in deployment become in-deployment
      with cleared errors; every other row, and every row when nothing is delivered or the agent is mget,
      stays as it was, or as the correction left it when that is on. */
  lemma GetTouchesExactlyTheDelivered(cfg: Config, refs: map<Bytes, Bytes>, dev: Device, req: GetRequest, dv: Versions,
                                      reply: UpstreamReply, now: nat)
    requires cfg.Valid() && FromStore(cfg, dev, req, dv, now)
    ensures
      var (dev', r) := Got(cfg, refs, dev, req, dv, reply, now);
      var rows := BuiltRows(cfg, dev.rows, dv, now);
      && rows.Keys == dev.rows.Keys
      && (!cfg.stateCorrection ==> rows == dev.rows)
      && dev'.rows.Keys == dev.rows.Keys
      && forall id :: id in dev.rows ==>
           dev'.rows[id] == if id in r.parts && !req.mget then AfterDelivery(rows[id], dev.rows[id].GetState(), now)
                            else rows[id]
  {
    StoreAnswer(cfg, refs, dev, req, dv, reply, now);
    BuiltRowsKeepVersions(cfg, dev.rows, dv, now);
    BuiltDocIsViews(cfg, dev, req, dv, now);
    ResponseTouches(cfg, refs, BuiltDocument(cfg, dev, req, dv, now), req.mget, now);
    RowsAfter(cfg, dev, req, dv, now);
  }

  /** The states a document shows are those stored before the correction. */
  lemma RowsAfter(cfg: Config, dev: Device, req: GetRequest, dv: Versions, now: nat)
    ensures
      var built := BuiltDocument(cfg, dev, req, dv, now);
      forall id, sent :: id in built.dev.rows && (sent ==> id in built.doc) ==>
        id in dev.rows && RowAfter(built, id, sent, now) ==
          if sent then AfterDelivery(built.dev.rows[id], dev.rows[id].GetState(), now) else built.dev.rows[id]
  {
    BuiltDocIsViews(cfg, dev, req, dv, now);
  }

  lemma BuiltDocIsViews(cfg: Config, dev: Device, req: GetRequest, dv: Versions, now: nat)
    ensures
      var built := BuiltDocument(cfg, dev, req, dv, now);
      && built.dev.rows == BuiltRows(cfg, dev.rows, dv, now)
      && built.dev.rows.Keys == dev.rows.Keys
      && forall id :: id in built.doc ==> id in dev.rows && built.doc[id] == View(dev.rows[id])
  {
    BuiltDeviceRows(cfg, dev, req, dv, now);
    forall id ensures
      var built := BuiltDocument(cfg, dev, req, dv, now);
      id in built.doc ==>
          id in ReadDocument(dev.rows, false, now) && built.doc[id] == ReadDocument(dev.rows, false, now)[id]
    {
      BuiltDocOf(cfg, dev, req, dv, now, id);
    }
  }

  lemma BuiltDeviceRows(cfg: Config, dev: Device, req: GetRequest, dv: Versions, now: nat)
    ensures BuiltDocument(cfg, dev, req, dv, now).dev.rows == BuiltRows(cfg, dev.rows, dv, now)
    ensures BuiltRows(cfg, dev.rows, dv, now).Keys == dev.rows.Keys
  {
    BuiltDocumentDevice(cfg, dev, req, dv, now);
    BuiltRowsKeepVersions(cfg, dev.rows, dv, now);
    if ReadDocument(dev.rows, false, now) == map[] {
      assert Corrections(map[], dv, now) == map[];
      assert WriteAll(dev.rows, map[]) == dev.rows;
    }
  }

  /** The parts of any answer from the store. */
  lemma PartsExactly(cfg: Config, refs: map<Bytes, Bytes>, dev: Device, req: GetRequest, dv: Versions,
                     reply: UpstreamReply, now: nat, id: string)
    requires cfg.Valid() && FromStore(cfg, dev, req, dv, now)
    ensures id in Got(cfg, refs, dev, req, dv, reply, now).1.parts
            <==> Wanted(cfg, refs, dev, req, dv, now, id) && !LockedOut(cfg, dev, req, now)
  {
    StoreAnswer(cfg, refs, dev, req, dv, reply, now);
    ResponseOf(cfg, refs, BuiltDocument(cfg, dev, req, dv, now), req.mget, now);
    if GetWithoutUpstream(cfg, refs, dev, req, dv, now).1.status == 200 {
      BuiltOutcome(cfg, dev, req, dv, now);
      DeliveredParts(cfg, refs, dev, req, dv, now);
    } else if Wanted(cfg, refs, dev, req, dv, now, id) {
      WantedIsDelivered(cfg, refs, dev, req, dv, now, id);
    }
  }

  /** The same, by the rows that were wanted. */
  lemma GetTouchesExactlyTheWanted(cfg: Config, refs: map<Bytes, Bytes>, dev: Device, req: GetRequest, dv: Versions,
                                   reply: UpstreamReply, now: nat, id: string)
    requires cfg.Valid() && FromStore(cfg, dev, req, dv, now) && id in dev.rows
    ensures
      var dev' := Got(cfg, refs, dev, req, dv, reply, now).0;
      var rows := BuiltRows(cfg, dev.rows, dv, now);
      && id in rows && id in dev'.rows
      && dev'.rows[id] == if Wanted(cfg, refs, dev, req, dv, now, id) && !LockedOut(cfg, dev, req, now) && !req.mget
                          then AfterDelivery(rows[id], dev.rows[id].GetState(), now)
                          else rows[id]
  {
    GetTouchesExactlyTheDelivered(cfg, refs, dev, req, dv, reply, now);
    PartsExactly(cfg, refs, dev, req, dv, reply, now, id);
  }

  // ---------- a device without visible rows ----------

  lemma NothingReadStatus(cfg: Config, refs: map<Bytes, Bytes>, dev: Device, req: GetRequest, dv: Versions, now: nat)
    requires cfg.Valid() && ReadDocument(dev.rows, false, now) == map[]
    ensures
      var locked := LockedOut(cfg, dev, req, now);
      var equal := !req.mget && Comparison(dev, req, dv).RootEquals?;
      GetWithoutUpstream(cfg, refs, dev, req, dv, now).1.status
      == if req.Mismatched() then 404
         else if locked then 409
         else if equal || cfg.stateCorrection then 304
         else 404
  {
    assert ForGet(map[], dev.root.GetOr(req.meta).version, dv) - Keyed(cfg.blockedIds) == map[];
  }

  /** The status such a device gets: the error of a correction's read is dropped, so with correction on
      it is told that nothing changed, unless it asks for a reset. */
  lemma NoVisibleRowStatus(cfg: Config, refs: map<Bytes, Bytes>, dev: Device, req: GetRequest, dv: Versions,
                           reply: UpstreamReply, now: nat)
    requires cfg.Valid() && !cfg.upstream && ReadDocument(dev.rows, false, now) == map[]
    ensures
      var locked := LockedOut(cfg, dev, req, now);
      var equal := !req.mget && Comparison(dev, req, dv).RootEquals?;
      var status := Got(cfg, refs, dev, req, dv, reply, now).1.status;
      var found := !req.FactoryReset() && !req.Mismatched();
      && (status == 409 <==> found && locked)
      && (status == 404 <==> !found || (!locked && !equal && !cfg.stateCorrection))
      && (status == 304 <==> found && !locked && (equal || cfg.stateCorrection))
  {
    if !req.FactoryReset() {
      NothingReadStatus(cfg, refs, dev, req, dv, now);
    }
  }

  /** A device the service has never seen, and that lists no subdocument: 404, or 304 when correction is on
      and it asks for no reset. */
  lemma UnknownDeviceStatus(cfg: Config, refs: map<Bytes, Bytes>, req: GetRequest, reply: UpstreamReply, now: nat)
    requires cfg.Valid() && !cfg.upstream && req.WellFormed() && req.docs == []
    ensures Got(cfg, refs, NO_DEVICE, req, map[], reply, now).1.status
         == if cfg.stateCorrection && !req.FactoryReset() then 304 else 404
  {
    assert ReadDocument(map[], false, now) == map[];
    NoVisibleRowStatus(cfg, refs, NO_DEVICE, req, map[], reply, now);
  }

  lemma OnlyLocksRefuse(cfg: Config, dev: Device, req: GetRequest, dv: Versions, now: nat)
    ensures BuiltDocument(cfg, dev, req, dv, now).error == RootLocked ==> LockedOut(cfg, dev, req, now)
  {
  }

  lemma UnlockedStatus(cfg: Config, refs: map<Bytes, Bytes>, dev: Device, req: GetRequest, dv: Versions, now: nat)
    requires cfg.Valid() && !LockedOut(cfg, dev, req, now)
    ensures GetWithoutUpstream(cfg, refs, dev, req, dv, now).1.status in {200, 304, 404}
  {
    OnlyLocksRefuse(cfg, dev, req, dv, now);
    AnswerStatus(cfg, refs, BuiltDocument(cfg, dev, req, dv, now), req.mget, now);
  }

  lemma AnswerStatus(cfg: Config, refs: map<Bytes, Bytes>, built: Built, mget: bool, now: nat)
    requires cfg.Valid() && built.error != RootLocked
    ensures AnswerWithoutUpstream(cfg, refs, built, mget, now).1.status in {200, 304, 404}
  {
  }

  lemma EqualRootsGive304(cfg: Config, refs: map<Bytes, Bytes>, dev: Device, req: GetRequest, dv: Versions, now: nat)
    requires cfg.Valid() && !req.mget && !req.Mismatched()
    requires dev.root.Some? && !(dev.root.value.Locked(now) && cfg.lockRootDocument)
    requires dev.root.value.Compare(req.meta.(version := Lookup(dv, "root", ""))).RootEquals?
    ensures GetWithoutUpstream(cfg, refs, dev, req, dv, now).1.status == 304
    ensures GetWithoutUpstream(cfg, refs, dev, req, dv, now).0.rows == BuiltRows(cfg, dev.rows, dv, now)
  {
    BuiltDocumentDevice(cfg, dev, req, dv, now);
  }
}
