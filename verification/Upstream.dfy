/** Writing an upstream answer back: the root version, the stored keys, and every row. */
module Upstream {
  import opened Common
  import opened RootDocuments
  import opened Store
  import opened Steps
  import opened Deliveries
  import opened Machine

  /** The root version becomes the upstream tag, except when the document handed over carries that tag
      already while the store holds another version. */
  lemma WriteBackSetsRootVersion(dev: Device, etag: string, newDoc: Rows, doc: Rows, docVersion: string, toDelete: bool,
                                 dv: Versions, now: nat)
    ensures WrittenFromUpstream(dev, etag, newDoc, doc, docVersion, toDelete, dv, now).root.GetOr(NO_ROOT).version
            == etag
            <==> docVersion != etag || dev.root.GetOr(NO_ROOT).version == etag
  {
  }

  /** With deletion the stored keys are the new document's and those the old document did not show;
      without it no key goes away. */
  lemma WriteBackKeys(dev: Device, etag: string, newDoc: Rows, doc: Rows, docVersion: string, toDelete: bool,
                      dv: Versions, now: nat)
    requires doc.Keys <= dev.rows.Keys
    ensures WrittenFromUpstream(dev, etag, newDoc, doc, docVersion, toDelete, dv, now).rows.Keys
         == newDoc.Keys + (if toDelete then dev.rows.Keys - doc.Keys else dev.rows.Keys)
  {
    var writes := UpstreamWrites(newDoc, doc, dv, now);
    assert writes.Keys <= newDoc.Keys;
    assert newDoc.Keys - writes.Keys <= doc.Keys;
  }

  /** Every new row: untouched when device, old and new version agree, else in-deployment at this time
      with zeroed errors, the new version, and the new payload unless that is empty. */
  lemma WriteBackRows(dev: Device, etag: string, newDoc: Rows, doc: Rows, docVersion: string, toDelete: bool,
                      dv: Versions, now: nat, id: string)
    requires doc.Keys <= dev.rows.Keys
    ensures
      var rows := WrittenFromUpstream(dev, etag, newDoc, doc, docVersion, toDelete, dv, now).rows;
      && (id in newDoc ==> id in rows)
      && (id in newDoc && id in dv && id in doc && newDoc[id].version == Some(dv[id])
          && doc[id].GetVersion() == dv[id] ==>
            rows[id] == dev.rows[id])
      && (id in newDoc
          && !(id in dv && id in doc && newDoc[id].version == Some(dv[id]) && doc[id].GetVersion() == dv[id]) ==>
            && rows[id].state == Some(IN_DEPLOYMENT) && rows[id].updatedTime == Some(now)
            && rows[id].errorCode == Some(0) && rows[id].errorDetails == Some("")
            && (newDoc[id].version.Some? ==> rows[id].version == newDoc[id].version)
            && rows[id].payload == if newDoc[id].payload != [] then newDoc[id].payload else RowOf(dev.rows, id).payload)
      && (id !in newDoc && id in rows ==> id in dev.rows && rows[id] == dev.rows[id])
  {
  }

  // ---------- the crash ----------

  /** A config request crashes exactly when upstream is on, the request is no reset, its two lists differ in
      length, the device has no visible row, the header announces no bitmap, the agent is not mget, and
      upstream answers: the nil root document is then read for its bitmap. */
  lemma GetCrashesExactly(cfg: Config, refs: map<Bytes, Bytes>, dev: Device, req: GetRequest, dv: Versions,
                          reply: UpstreamReply, now: nat)
    requires cfg.Valid()
    requires reply.Refused? ==> reply.status != CRASHED
    ensures Got(cfg, refs, dev, req, dv, reply, now).1.status == CRASHED
            <==>
            && cfg.upstream && !req.FactoryReset()
            && req.Mismatched() && ReadDocument(dev.rows, false, now) == map[]
            && req.meta.bitmap == 0 && !req.mget && reply.Replied?
  {
    if req.FactoryReset() {
      ResetDoesNotCrash(cfg, refs, dev, req.meta, reply, now);
    } else {
      BuiltRoots(cfg, dev, req, dv, now);
      AnswerCrashesExactly(cfg, refs, BuiltDocument(cfg, dev, req, dv, now), req.mget, dv, reply, now);
    }
  }

  lemma ResetDoesNotCrash(cfg: Config, refs: map<Bytes, Bytes>, dev: Device, meta: RootDoc, reply: UpstreamReply,
                          now: nat)
    requires cfg.Valid()
    requires reply.Refused? ==> reply.status != CRASHED
    ensures FactoryReset(cfg, refs, dev, meta, reply, now).1.status != CRASHED
  {
  }

  lemma AnswerCrashesExactly(cfg: Config, refs: map<Bytes, Bytes>, built: Built, mget: bool, dv: Versions,
                             reply: UpstreamReply, now: nat)
    requires cfg.Valid()
    requires reply.Refused? ==> reply.status != CRASHED
    requires built.oldRoot.None? ==> built.error == DocNotFound
    ensures AnswerWithUpstream(cfg, refs, built, mget, dv, reply, now).1.status == CRASHED
            <==> built.oldRoot.None? && built.newRoot.bitmap == 0 && !mget && reply.Replied?
    ensures AnswerWithoutUpstream(cfg, refs, built, mget, now).1.status != CRASHED
  {
  }

  // ---------- which requests reach upstream ----------

  /** What upstream would answer makes a difference exactly when upstream is on and the request asks it. */
  lemma UpstreamIsAskedExactly(cfg: Config, refs: map<Bytes, Bytes>, dev: Device, req: GetRequest, dv: Versions,
                               now: nat)
    requires cfg.Valid()
    ensures (exists reply, reply' ::
               Got(cfg, refs, dev, req, dv, reply, now) != Got(cfg, refs, dev, req, dv, reply', now))
            <==> cfg.upstream && AsksUpstream(cfg, dev, req, dv, now)
  {
    if cfg.upstream && AsksUpstream(cfg, dev, req, dv, now) {
      AskingShows(cfg, refs, dev, req, dv, now, 1);
      AskingShows(cfg, refs, dev, req, dv, now, 2);
      assert Got(cfg, refs, dev, req, dv, Refused(1), now) != Got(cfg, refs, dev, req, dv, Refused(2), now);
    } else {
      forall reply, reply'
        ensures Got(cfg, refs, dev, req, dv, reply, now) == Got(cfg, refs, dev, req, dv, reply', now)
      {
        AnswerWithoutAsking(cfg, refs, dev, req, dv, reply, reply', now);
      }
    }
  }

  /** A refusal of upstream reaches the device. */
  lemma AskingShows(cfg: Config, refs: map<Bytes, Bytes>, dev: Device, req: GetRequest, dv: Versions, now: nat,
                    status: int)
    requires cfg.Valid() && cfg.upstream && AsksUpstream(cfg, dev, req, dv, now)
    ensures Got(cfg, refs, dev, req, dv, Refused(status), now).1.status == status
  {
    if !req.FactoryReset() {
      BuiltAsks(cfg, dev, req, dv, now);
    }
  }

  /** A request that does not ask gets one answer, and leaves one device, whatever upstream would have said. */
  lemma AnswerWithoutAsking(cfg: Config, refs: map<Bytes, Bytes>, dev: Device, req: GetRequest, dv: Versions,
                            reply: UpstreamReply, reply': UpstreamReply, now: nat)
    requires cfg.Valid() && !(cfg.upstream && AsksUpstream(cfg, dev, req, dv, now))
    ensures Got(cfg, refs, dev, req, dv, reply, now) == Got(cfg, refs, dev, req, dv, reply', now)
  {
    if !req.FactoryReset() {
      BuiltAsks(cfg, dev, req, dv, now);
    }
  }

  /** With upstream on, a request of a device without visible rows reaches it exactly when it is no reset, the
      agent is not mget, and its lists mismatch, or it is not locked out, and its metadata changed or its root
      version is not the stored one and correction is off: correction keeps such a device from upstream. */
  lemma NoVisibleRowAsksExactly(cfg: Config, refs: map<Bytes, Bytes>, dev: Device, req: GetRequest, dv: Versions,
                                now: nat)
    requires cfg.Valid() && cfg.upstream && ReadDocument(dev.rows, false, now) == map[]
    ensures (exists reply, reply' ::
               Got(cfg, refs, dev, req, dv, reply, now) != Got(cfg, refs, dev, req, dv, reply', now))
            <==>
            && !req.FactoryReset() && !req.mget
            && (req.Mismatched() ||
                (!LockedOut(cfg, dev, req, now) &&
                 (Comparison(dev, req, dv).MetaChanged? ||
                  (!Comparison(dev, req, dv).RootEquals? && !cfg.stateCorrection))))
  {
    UpstreamIsAskedExactly(cfg, refs, dev, req, dv, now);
  }

  // ---------- the root document a request leaves ----------

  /** The lists mismatch and no row is visible: the handler returns before it reads the root document. */
  predicate Unread(dev: Device, req: GetRequest, now: int) {
    !req.FactoryReset() && req.Mismatched() && ReadDocument(dev.rows, false, now) == map[]
  }

  /** Upstream is asked, answers, and its answer is written back: the request does not crash. */
  predicate WritesBack(cfg: Config, dev: Device, req: GetRequest, dv: Versions, reply: UpstreamReply, now: int) {
    && AsksUpstream(cfg, dev, req, dv, now) && reply.Replied? && !reply.skipDbUpdate
    && !(req.Mismatched() && ReadDocument(dev.rows, false, now) == map[] && req.meta.bitmap == 0)
  }

  /** The root document before any write-back. */
  function KeptRoot(dev: Device, req: GetRequest, now: int): Option<RootDoc> {
    if req.FactoryReset() then
      Some(StoredRoot(dev.root, if dev.root.None? then req.meta else Updated(dev.root.value, req.meta)))
    else if Unread(dev, req, now) then dev.root
    else BuiltRoot(dev, req)
  }

  /** The tag of the document handed to a write-back: not-found hands over none. */
  function HandedTag(cfg: Config, dev: Device, req: GetRequest, now: int): string {
    if !req.FactoryReset() && ReadDocument(dev.rows, false, now) == map[] && (req.Mismatched() || !cfg.stateCorrection)
    then ""
    else dev.root.GetOr(NO_ROOT).version
  }

  function RootAfter(cfg: Config, dev: Device, req: GetRequest, dv: Versions, reply: UpstreamReply,
                     now: int): Option<RootDoc> {
    var kept := KeptRoot(dev, req, now);
    if cfg.upstream && WritesBack(cfg, dev, req, dv, reply, now) && reply.etag != HandedTag(cfg, dev, req, now)
    then Some(WithVersion(kept, reply.etag))
    else kept
  }

  lemma GotLeavesRoot(cfg: Config, refs: map<Bytes, Bytes>, dev: Device, req: GetRequest, dv: Versions,
                      reply: UpstreamReply, now: nat)
    requires cfg.Valid() && req.WellFormed()
    ensures Got(cfg, refs, dev, req, dv, reply, now).0.root == RootAfter(cfg, dev, req, dv, reply, now)
  {
    if req.FactoryReset() {
      ResetLeavesRoot(cfg, refs, dev, req, dv, reply, now);
    } else {
      BuiltDocumentDevice(cfg, dev, req, dv, now);
      if FromStore(cfg, dev, req, dv, now) {
        StoreAnswer(cfg, refs, dev, req, dv, reply, now);
        ResponseOf(cfg, refs, BuiltDocument(cfg, dev, req, dv, now), req.mget, now);
      } else {
        AskingLeavesRoot(cfg, refs, dev, req, dv, reply, now);
      }
    }
  }

  lemma ResetLeavesRoot(cfg: Config, refs: map<Bytes, Bytes>, dev: Device, req: GetRequest, dv: Versions,
                        reply: UpstreamReply, now: nat)
    requires cfg.Valid() && req.WellFormed() && req.FactoryReset()
    ensures Got(cfg, refs, dev, req, dv, reply, now).0.root == RootAfter(cfg, dev, req, dv, reply, now)
  {
  }

  lemma AskingLeavesRoot(cfg: Config, refs: map<Bytes, Bytes>, dev: Device, req: GetRequest, dv: Versions,
                         reply: UpstreamReply, now: nat)
    requires cfg.Valid() && req.WellFormed() && !req.FactoryReset()
    requires cfg.upstream && AsksUpstream(cfg, dev, req, dv, now)
    ensures Got(cfg, refs, dev, req, dv, reply, now).0.root == RootAfter(cfg, dev, req, dv, reply, now)
  {
    BuiltDocumentDevice(cfg, dev, req, dv, now);
    BuiltAsks(cfg, dev, req, dv, now);
    BuiltRoots(cfg, dev, req, dv, now);
    AskedTag(cfg, dev, req, dv, now);
    WriteBackRoot(cfg, refs, BuiltDocument(cfg, dev, req, dv, now), req.mget, dv, reply, now);
  }

  lemma WriteBackRoot(cfg: Config, refs: map<Bytes, Bytes>, built: Built, mget: bool, dv: Versions,
                      reply: UpstreamReply, now: nat)
    requires cfg.Valid()
    requires built.error != RootLocked && !mget && (built.error == DocNotFound || built.postUpstream)
    ensures AnswerWithUpstream(cfg, refs, built, mget, dv, reply, now).0.root
         == if reply.Replied? && !reply.skipDbUpdate && !(built.newRoot.bitmap == 0 && built.oldRoot.None?)
               && built.docRoot.version != reply.etag
            then Some(WithVersion(built.dev.root, reply.etag))
            else built.dev.root
  {
  }

  lemma AskedTag(cfg: Config, dev: Device, req: GetRequest, dv: Versions, now: nat)
    requires req.WellFormed() && !req.FactoryReset()
    ensures AsksUpstream(cfg, dev, req, dv, now) ==>
              BuiltDocument(cfg, dev, req, dv, now).docRoot.version == HandedTag(cfg, dev, req, now)
  {
  }

  /** Of an answer that is written back the tag becomes the root version, unless it is empty, no row was visible,
      and the lists mismatch or correction is off: then a root version stored before stays. */
  lemma GotStoresTagExactly(cfg: Config, refs: map<Bytes, Bytes>, dev: Device, req: GetRequest, dv: Versions,
                            reply: UpstreamReply, now: nat)
    requires cfg.Valid() && req.WellFormed() && cfg.upstream && WritesBack(cfg, dev, req, dv, reply, now)
    ensures
      var stored := dev.root.GetOr(NO_ROOT).version;
      var version := Got(cfg, refs, dev, req, dv, reply, now).0.root.GetOr(NO_ROOT).version;
      && (version != reply.etag <==>
            && !req.FactoryReset() && reply.etag == "" && stored != ""
            && ReadDocument(dev.rows, false, now) == map[] && (req.Mismatched() || !cfg.stateCorrection))
      && (version != reply.etag ==> version == stored)
  {
    GotLeavesRoot(cfg, refs, dev, req, dv, reply, now);
  }

  /** It does happen: no row is visible, correction is off, the metadata changed, and the answer has no tag. */
  lemma UntaggedAnswerKeepsVersion(cfg: Config, refs: map<Bytes, Bytes>, dev: Device, req: GetRequest, dv: Versions,
                                   parts: seq<Multipart>, now: nat)
    requires cfg.Valid() && req.WellFormed() && cfg.upstream && !cfg.stateCorrection
    requires !req.FactoryReset() && !req.mget && !req.Mismatched() && !LockedOut(cfg, dev, req, now)
    requires ReadDocument(dev.rows, false, now) == map[] && Comparison(dev, req, dv).MetaChanged?
    requires dev.root.GetOr(NO_ROOT).version != ""
    ensures Got(cfg, refs, dev, req, dv, Replied("", parts, false), now).0.root.GetOr(NO_ROOT).version
         == dev.root.GetOr(NO_ROOT).version
  {
    GotStoresTagExactly(cfg, refs, dev, req, dv, Replied("", parts, false), now);
  }
}
