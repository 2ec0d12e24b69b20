/** Whether a device that adopts what it was sent is sent anything again. */
module Convergence {
  import opened Common
  import opened RootDocuments
  import opened Documents
  import opened Store
  import opened Steps
  import opened Machine
  import opened Deliveries
  import opened Upstream

  // ---------- the metadata of the header ----------

  /** After the request the same header no longer shows other metadata than the store. */
  ghost predicate MetadataSettles(cfg: Config, dev: Device, req: GetRequest, dv: Versions, reply: UpstreamReply,
                                  now: int) {
    if !Unread(dev, req, now) then HeaderCovers(dev.root.GetOr(req.meta), req.meta)
    else
      var tagged := cfg.upstream && WritesBack(cfg, dev, req, dv, reply, now) && reply.etag != "";
      !dev.root.GetOr(if tagged then NO_ROOT else req.meta).Compare(req.meta).MetaChanged?
  }

  /** A config request stores the header's metadata, and the next request with the same header does not see them
      as changed, unless the header leaves a stored non-partner field uncovered; but a request whose lists
      mismatch, of a device without visible rows, stores none, and an upstream tag may be all that is stored. */
  lemma MetadataConverge(cfg: Config, refs: map<Bytes, Bytes>, dev: Device, req: GetRequest, dv: Versions,
                         reply: UpstreamReply, now: nat, version: string)
    requires cfg.Valid() && req.WellFormed()
    ensures
      var root := Got(cfg, refs, dev, req, dv, reply, now).0.root;
      root.GetOr(req.meta).Compare(req.meta.(version := version)).MetaChanged?
      <==> !MetadataSettles(cfg, dev, req, dv, reply, now)
  {
    GotLeavesRoot(cfg, refs, dev, req, dv, reply, now);
    if !Unread(dev, req, now) {
      KeptRootSettles(dev, req, now, version);
    }
  }

  lemma KeptRootSettles(dev: Device, req: GetRequest, now: nat, version: string)
    requires req.WellFormed() && !Unread(dev, req, now)
    ensures KeptRoot(dev, req, now).Some?
    ensures KeptRoot(dev, req, now).value.Compare(req.meta.(version := version)).MetaChanged?
            <==> !HeaderCovers(dev.root.GetOr(req.meta), req.meta)
  {
  }

  /** Such a request of a known device repeats: other metadata than the stored ones stay other, covered or not. */
  lemma UnreadMetadataStayChanged(cfg: Config, refs: map<Bytes, Bytes>, dev: Device, req: GetRequest, dv: Versions,
                                  reply: UpstreamReply, now: nat)
    requires cfg.Valid() && req.WellFormed() && Unread(dev, req, now)
    requires dev.root.Some? && dev.root.value.Compare(req.meta).MetaChanged?
    ensures
      var root := Got(cfg, refs, dev, req, dv, reply, now).0.root;
      root.Some? && root.value.Compare(req.meta).MetaChanged?
  {
    GotLeavesRoot(cfg, refs, dev, req, dv, reply, now);
  }

  /** The stored bitmap after a request is the one its own delivery filtered by. */
  lemma FilterBitmapSettles(dev: Device, req: GetRequest, version: string)
    requires req.WellFormed() && HeaderCovers(dev.root.GetOr(req.meta), req.meta)
    ensures
      var cloud := dev.root.GetOr(req.meta);
      var metaChanged := cloud.Compare(req.meta.(version := version)).MetaChanged?;
      BuiltRoot(dev, req).Some? &&
      BuiltRoot(dev, req).value.bitmap == if metaChanged && req.meta.bitmap > 0 then req.meta.bitmap else cloud.bitmap
  {
  }

  lemma RootDocumentSettles(dev: Device, req: GetRequest, version: string)
    requires req.WellFormed()
    ensures BuiltRoot(dev, req).Some?
    ensures BuiltRoot(dev, req).value.Compare(req.meta.(version := version)).MetaChanged?
            <==> !HeaderCovers(dev.root.GetOr(req.meta), req.meta)
  {
  }

  // ---------- the requests that follow ----------

  /** The next request: the same device, now listing the root version and the part versions it was
      sent on top of what it listed before. */
  ghost predicate Adopts(req: GetRequest, dv: Versions, r: Response, req': GetRequest, dv': Versions)
  {
    && req'.meta == req.meta && req'.mget == req.mget
    && req'.docs != [] && |req'.docs| == |req'.versions| && dv' == Zip(req'.docs, req'.versions)
    && Lookup(dv', "root", "") == r.etag
    && (forall id :: id in r.parts && id != "root" ==> Lookup(dv', id, "") == r.parts[id].version)
    && (forall id :: id !in r.parts && id != "root" ==> Lookup(dv', id, "") == Lookup(dv, id, ""))
  }

  /** One request: its header, the version map attributed to the device, the reference table, and what
      upstream would answer. */
  datatype Visit = Visit(req: GetRequest, dv: Versions, refs: map<Bytes, Bytes>, reply: UpstreamReply, now: nat)

  /** The answer to a visit. */
  ghost function AnswerTo(cfg: Config, dev: Device, v: Visit): (Device, Response)
    requires cfg.Valid()
  {
    Got(cfg, v.refs, dev, v.req, v.dv, v.reply, v.now)
  }

  /** A later request of a device that was answered r: it lists what it was sent, and asks for no reset. */
  ghost predicate Again(r: Response, req: GetRequest, dv: Versions, now: nat, v: Visit) {
    && v.req.WellFormed() && !v.req.FactoryReset() && now <= v.now && Adopts(req, dv, r, v.req, v.dv)
  }

  /** Any number of such requests. */
  ghost predicate Returns(cfg: Config, dev': Device, r: Response, req: GetRequest, dv: Versions, now: nat,
                          states: seq<Device>, visits: seq<Visit>)
    requires cfg.Valid()
  {
    && |states| == |visits| + 1 && states[0] == dev'
    && (forall k: nat :: k < |visits| ==> states[k + 1] == AnswerTo(cfg, states[k], visits[k]).0)
    && (forall k: nat :: k < |visits| ==> Again(r, req, dv, now, visits[k]))
  }

  /** The state after a visit is the answer's, and the visit has the header of the first request. */
  lemma VisitOf(cfg: Config, dev': Device, r: Response, req: GetRequest, dv: Versions, now: nat, states: seq<Device>,
                visits: seq<Visit>, k: nat)
    requires cfg.Valid() && Returns(cfg, dev', r, req, dv, now, states, visits) && k < |visits|
    ensures states[k + 1] == AnswerTo(cfg, states[k], visits[k]).0
    ensures Again(r, req, dv, now, visits[k])
    ensures visits[k].req.meta == req.meta && !visits[k].req.Mismatched() && !visits[k].req.FactoryReset()
  {
  }

  /** A device that adopts a root version asks for a reset only when that version reads as the request for
      one. */
  lemma AdoptedTagIsNoReset(req: GetRequest, dv: Versions, r: Response, req': GetRequest, dv': Versions)
    requires Adopts(req, dv, r, req', dv') && r.etag != ""
    ensures req'.FactoryReset() ==> r.etag == "NONE" || r.etag == "NONE-REBOOT"
  {
    if req'.FactoryReset() {
      assert Zip(req'.docs[..0], req'.versions[..0]) == map[];
      assert dv' == map[req'.docs[0] := req'.versions[0]];
    }
  }

  // ---------- after a 200 ----------

  /** The tag of the answer is the stored root version afterwards: it came from the store, it was written back,
      or the store held it already. */
  predicate TagStored(cfg: Config, dev: Device, req: GetRequest, dv: Versions, reply: UpstreamReply, now: int) {
    || !(cfg.upstream && AsksUpstream(cfg, dev, req, dv, now) && reply.Replied? && reply.skipDbUpdate)
    || dev.root.GetOr(NO_ROOT).version == reply.etag
  }

  lemma TagAfter(cfg: Config, refs: map<Bytes, Bytes>, dev: Device, req: GetRequest, dv: Versions,
                 reply: UpstreamReply, now: nat)
    requires cfg.Valid() && req.WellFormed() && !req.FactoryReset()
    ensures
      var (dev', r) := Got(cfg, refs, dev, req, dv, reply, now);
      r.status == 200 && r.etag != "" ==>
        (dev'.root.GetOr(NO_ROOT).version == r.etag <==> TagStored(cfg, dev, req, dv, reply, now))
  {
    GotLeavesRoot(cfg, refs, dev, req, dv, reply, now);
    KeptVersion(dev, req, now);
    if FromStore(cfg, dev, req, dv, now) {
      GetDeliversExactlyTheWanted(cfg, refs, dev, req, dv, reply, now);
    } else {
      AskedAnswer(cfg, refs, dev, req, dv, reply, now);
    }
  }

  lemma KeptVersion(dev: Device, req: GetRequest, now: nat)
    requires req.WellFormed()
    ensures KeptRoot(dev, req, now).GetOr(NO_ROOT).version == dev.root.GetOr(NO_ROOT).version
    ensures KeptRoot(dev, req, now).GetOr(NO_ROOT).lockedTill == dev.root.GetOr(NO_ROOT).lockedTill
  {
  }

  /** The tag of an answer from upstream is the one upstream sent. */
  lemma AskedAnswer(cfg: Config, refs: map<Bytes, Bytes>, dev: Device, req: GetRequest, dv: Versions,
                    reply: UpstreamReply, now: nat)
    requires cfg.Valid() && !req.FactoryReset() && cfg.upstream && AsksUpstream(cfg, dev, req, dv, now)
    ensures
      var r := Got(cfg, refs, dev, req, dv, reply, now).1;
      r.etag != "" ==>
        reply.Replied? && r.etag == reply.etag && (reply.skipDbUpdate || WritesBack(cfg, dev, req, dv, reply, now))
  {
    BuiltAsks(cfg, dev, req, dv, now);
    BuiltRoots(cfg, dev, req, dv, now);
  }

  /** How the next request compares. */
  lemma NextComparison(cfg: Config, refs: map<Bytes, Bytes>, dev: Device, req: GetRequest, dv: Versions,
                       reply: UpstreamReply, now: nat, v: Visit)
    requires cfg.Valid() && req.WellFormed() && !req.FactoryReset()
    requires Got(cfg, refs, dev, req, dv, reply, now).1.status == 200
    requires Again(Got(cfg, refs, dev, req, dv, reply, now).1, req, dv, now, v)
    ensures
      var (dev', r) := Got(cfg, refs, dev, req, dv, reply, now);
      && (Comparison(dev', v.req, v.dv).MetaChanged? <==> !MetadataSettles(cfg, dev, req, dv, reply, now))
      && (Comparison(dev', v.req, v.dv).RootEquals? <==>
            && MetadataSettles(cfg, dev, req, dv, reply, now)
            && r.etag != "" && TagStored(cfg, dev, req, dv, reply, now))
  {
    var (dev', r) := Got(cfg, refs, dev, req, dv, reply, now);
    MetadataConverge(cfg, refs, dev, req, dv, reply, now, r.etag);
    TagAfter(cfg, refs, dev, req, dv, reply, now);
    CompareByVersion(dev'.root.GetOr(req.meta), req.meta, r.etag);
  }

  lemma CompareByVersion(stored: RootDoc, meta: RootDoc, version: string)
    ensures stored.Compare(meta.(version := version)).RootEquals? <==>
              !stored.Compare(meta.(version := version)).MetaChanged? && stored.version == version && version != ""
  {
  }

  /** No request changes the lock of a root document. */
  lemma LockStays(cfg: Config, refs: map<Bytes, Bytes>, dev: Device, req: GetRequest, dv: Versions,
                  reply: UpstreamReply, now: nat, v: Visit)
    requires cfg.Valid() && req.WellFormed() && v.req.WellFormed() && now <= v.now
    ensures LockedOut(cfg, Got(cfg, refs, dev, req, dv, reply, now).0, v.req, v.now) ==> LockedOut(cfg, dev, req, now)
  {
    GotLeavesRoot(cfg, refs, dev, req, dv, reply, now);
    KeptVersion(dev, req, now);
  }

  // ---------- every later request, with a root version ----------

  /** The stored root document is the header's, under the tag. */
  ghost predicate Quiet(cfg: Config, dev: Device, meta: RootDoc, etag: string, now: int) {
    && dev.root.Some? && dev.root.value.Compare(meta.(version := etag)).RootEquals?
    && !(cfg.lockRootDocument && dev.root.value.Locked(now))
  }

  lemma QuietVisit(cfg: Config, dev: Device, v: Visit, etag: string, now: nat)
    requires cfg.Valid() && v.req.WellFormed() && now <= v.now
    requires !v.req.mget && !v.req.Mismatched() && !v.req.FactoryReset()
    requires Quiet(cfg, dev, v.req.meta, etag, now) && Lookup(v.dv, "root", "") == etag
    ensures AnswerTo(cfg, dev, v).1.status == 304
    ensures AnswerTo(cfg, dev, v).0.rows == BuiltRows(cfg, dev.rows, v.dv, v.now)
    ensures Quiet(cfg, AnswerTo(cfg, dev, v).0, v.req.meta, etag, now)
  {
    EqualRootsGive304(cfg, v.refs, dev, v.req, v.dv, v.now);
    StoreAnswer(cfg, v.refs, dev, v.req, v.dv, v.reply, v.now);
    GotLeavesRoot(cfg, v.refs, dev, v.req, v.dv, v.reply, v.now);
    QuietRootStays(dev, v.req, etag);
  }

  lemma QuietRootStays(dev: Device, req: GetRequest, etag: string)
    requires req.WellFormed() && dev.root.Some? && dev.root.value.Compare(req.meta.(version := etag)).RootEquals?
    ensures BuiltRoot(dev, req).Some? && BuiltRoot(dev, req).value.lockedTill == dev.root.value.lockedTill
    ensures BuiltRoot(dev, req).value.Compare(req.meta.(version := etag)).RootEquals?
  {
  }

  lemma QuietVisitAgain(cfg: Config, dev': Device, r: Response, req: GetRequest, dv: Versions, now: nat,
                        states: seq<Device>, visits: seq<Visit>, k: nat)
    requires cfg.Valid() && !req.mget && k < |visits| && Returns(cfg, dev', r, req, dv, now, states, visits)
    requires Quiet(cfg, states[k], req.meta, r.etag, now)
    ensures Quiet(cfg, states[k + 1], req.meta, r.etag, now)
  {
    VisitOf(cfg, dev', r, req, dv, now, states, visits, k);
    QuietVisit(cfg, states[k], visits[k], r.etag, now);
  }

  /** Over any number of such requests. */
  lemma {:induction false} StaysQuiet(cfg: Config, dev': Device, r: Response, req: GetRequest, dv: Versions, now: nat,
                                      states: seq<Device>, visits: seq<Visit>, k: nat)
    requires cfg.Valid() && !req.mget && k < |states| && Returns(cfg, dev', r, req, dv, now, states, visits)
    requires Quiet(cfg, dev', req.meta, r.etag, now)
    ensures Quiet(cfg, states[k], req.meta, r.etag, now)
  {
    if k > 0 {
      StaysQuiet(cfg, dev', r, req, dv, now, states, visits, k - 1);
      QuietVisitAgain(cfg, dev', r, req, dv, now, states, visits, k - 1);
    }
  }

  /** The 200 of a request whose metadata settle, and whose tag is stored, quiets the device; only a request that
      did not read the root document can get one against a lock. */
  lemma FirstGetQuiets(cfg: Config, refs: map<Bytes, Bytes>, dev: Device, req: GetRequest, dv: Versions,
                       reply: UpstreamReply, now: nat)
    requires cfg.Valid() && !req.FactoryReset() && req.WellFormed() && !LockedOut(cfg, dev, req, now)
    requires MetadataSettles(cfg, dev, req, dv, reply, now) && TagStored(cfg, dev, req, dv, reply, now)
    ensures
      var (dev', r) := Got(cfg, refs, dev, req, dv, reply, now);
      r.status == 200 && r.etag != "" ==> Quiet(cfg, dev', req.meta, r.etag, now)
  {
    var (dev', r) := Got(cfg, refs, dev, req, dv, reply, now);
    if r.status == 200 && r.etag != "" {
      MetadataConverge(cfg, refs, dev, req, dv, reply, now, r.etag);
      TagAfter(cfg, refs, dev, req, dv, reply, now);
      GotLeavesRoot(cfg, refs, dev, req, dv, reply, now);
      KeptVersion(dev, req, now);
      CompareByVersion(dev'.root.GetOr(req.meta), req.meta, r.etag);
    }
  }

  /** After a 200 with a root version, from the store or from upstream, whose tag is stored and whose metadata
      settle, the device, having adopted what it was sent, gets 304 on every later request, and no row changes but
      by a correction. */
  lemma GetConverges(cfg: Config, refs: map<Bytes, Bytes>, dev: Device, req: GetRequest, dv: Versions,
                     reply: UpstreamReply, now: nat, states: seq<Device>, visits: seq<Visit>, k: nat)
    requires cfg.Valid() && !req.FactoryReset() && !req.mget && req.WellFormed() && !LockedOut(cfg, dev, req, now)
    requires MetadataSettles(cfg, dev, req, dv, reply, now) && TagStored(cfg, dev, req, dv, reply, now)
    requires k < |visits| < |states|
    ensures
      var (dev', r) := Got(cfg, refs, dev, req, dv, reply, now);
      r.status == 200 && r.etag != "" && Returns(cfg, dev', r, req, dv, now, states, visits) ==>
        && AnswerTo(cfg, states[k], visits[k]).1.status == 304
        && states[k + 1].rows == BuiltRows(cfg, states[k].rows, visits[k].dv, visits[k].now)
  {
    var (dev', r) := Got(cfg, refs, dev, req, dv, reply, now);
    if r.status == 200 && r.etag != "" && Returns(cfg, dev', r, req, dv, now, states, visits) {
      FirstGetQuiets(cfg, refs, dev, req, dv, reply, now);
      StaysQuiet(cfg, dev', r, req, dv, now, states, visits, k);
      VisitOf(cfg, dev', r, req, dv, now, states, visits, k);
      QuietVisit(cfg, states[k], visits[k], r.etag, now);
    }
  }

  /** After any 200, with a root version or without, from the store or from upstream: the next request of the
      adopting device asks upstream exactly when that is on, and the metadata have not settled, or no row is
      visible, correction is off, and the tag is empty or not stored; and when it does not ask, it is sent nothing
      exactly when the metadata have settled and the tag is stored and not empty, or no stored row is wanted. */
  lemma ConvergesExactly(cfg: Config, refs: map<Bytes, Bytes>, dev: Device, req: GetRequest, dv: Versions,
                         reply: UpstreamReply, now: nat, v: Visit)
    requires cfg.Valid() && !req.FactoryReset() && !req.mget && req.WellFormed() && !LockedOut(cfg, dev, req, now)
    ensures
      var (dev', r) := Got(cfg, refs, dev, req, dv, reply, now);
      var settles := MetadataSettles(cfg, dev, req, dv, reply, now);
      var tagged := r.etag != "" && TagStored(cfg, dev, req, dv, reply, now);
      r.status == 200 && Again(r, req, dv, now, v) ==>
        && (AsksUpstream(cfg, dev', v.req, v.dv, v.now) <==>
              !settles || (!tagged && ReadDocument(dev'.rows, false, v.now) == map[] && !cfg.stateCorrection))
        && (!(cfg.upstream && AsksUpstream(cfg, dev', v.req, v.dv, v.now)) ==>
              (AnswerTo(cfg, dev', v).1.status != 200 <==>
               (settles && tagged) || forall id :: !Wanted(cfg, v.refs, dev', v.req, v.dv, v.now, id)))
  {
    var (dev', r) := Got(cfg, refs, dev, req, dv, reply, now);
    if r.status == 200 && Again(r, req, dv, now, v) {
      NextComparison(cfg, refs, dev, req, dv, reply, now, v);
      LockStays(cfg, refs, dev, req, dv, reply, now, v);
      if !(cfg.upstream && AsksUpstream(cfg, dev', v.req, v.dv, v.now)) {
        GetAnswers200Exactly(cfg, v.refs, dev', v.req, v.dv, v.reply, v.now);
        EqualWantsNothing(cfg, v.refs, dev', v.req, v.dv, v.now);
      }
    }
  }

  lemma EqualWantsNothing(cfg: Config, refs: map<Bytes, Bytes>, dev: Device, req: GetRequest, dv: Versions, now: nat)
    requires cfg.Valid() && req.WellFormed()
    ensures Comparison(dev, req, dv).RootEquals? ==> forall id :: !Wanted(cfg, refs, dev, req, dv, now, id)
  {
  }

  // ---------- an mget agent ----------

  ghost predicate Tagged(cfg: Config, dev: Device, etag: string, now: int) {
    && dev.root.Some? && dev.root.value.version == etag && !(cfg.lockRootDocument && dev.root.value.Locked(now))
  }

  lemma MgetVisit(cfg: Config, dev: Device, v: Visit, etag: string, now: nat)
    requires cfg.Valid() && v.req.WellFormed() && now <= v.now
    requires v.req.mget && !v.req.Mismatched() && !v.req.FactoryReset()
    requires Tagged(cfg, dev, etag, now) && Lookup(v.dv, "root", "") == etag && etag != ""
    ensures AnswerTo(cfg, dev, v).1.status
         == if ReadDocument(dev.rows, false, v.now) == map[] && !cfg.stateCorrection then 404 else 304
    ensures AnswerTo(cfg, dev, v).0.rows == BuiltRows(cfg, dev.rows, v.dv, v.now)
    ensures Tagged(cfg, AnswerTo(cfg, dev, v).0, etag, now)
  {
    GotLeavesRoot(cfg, v.refs, dev, v.req, v.dv, v.reply, v.now);
    KeptVersion(dev, v.req, v.now);
    BuiltDeviceRows(cfg, dev, v.req, v.dv, v.now);
  }

  lemma MgetVisitAgain(cfg: Config, dev': Device, r: Response, req: GetRequest, dv: Versions, now: nat,
                       states: seq<Device>, visits: seq<Visit>, k: nat)
    requires cfg.Valid() && req.mget && r.etag != "" && k < |visits| && Returns(cfg, dev', r, req, dv, now, states, visits)
    requires Tagged(cfg, states[k], r.etag, now)
    ensures Tagged(cfg, states[k + 1], r.etag, now)
  {
    VisitOf(cfg, dev', r, req, dv, now, states, visits, k);
    MgetVisit(cfg, states[k], visits[k], r.etag, now);
  }

  lemma {:induction false} StaysTagged(cfg: Config, dev': Device, r: Response, req: GetRequest, dv: Versions, now: nat,
                                       states: seq<Device>, visits: seq<Visit>, k: nat)
    requires cfg.Valid() && req.mget && k < |states| && Returns(cfg, dev', r, req, dv, now, states, visits)
    requires Tagged(cfg, dev', r.etag, now) && r.etag != ""
    ensures Tagged(cfg, states[k], r.etag, now)
  {
    if k > 0 {
      StaysTagged(cfg, dev', r, req, dv, now, states, visits, k - 1);
      MgetVisitAgain(cfg, dev', r, req, dv, now, states, visits, k - 1);
    }
  }

  lemma FirstMgetTags(cfg: Config, refs: map<Bytes, Bytes>, dev: Device, req: GetRequest, dv: Versions,
                      reply: UpstreamReply, now: nat)
    requires cfg.Valid() && !req.FactoryReset() && req.mget && req.WellFormed()
    ensures
      var (dev', r) := Got(cfg, refs, dev, req, dv, reply, now);
      r.status == 200 && r.etag != "" ==> Tagged(cfg, dev', r.etag, now)
  {
    var r := Got(cfg, refs, dev, req, dv, reply, now).1;
    if r.status == 200 && r.etag != "" {
      StoreAnswer(cfg, refs, dev, req, dv, reply, now);
      BuiltOutcome(cfg, dev, req, dv, now);
      GotLeavesRoot(cfg, refs, dev, req, dv, reply, now);
      KeptVersion(dev, req, now);
    }
  }

  /** An mget agent that adopts a root version is never sent anything again, whatever metadata its header brings;
      it gets 304, or 404 once no row is visible and correction is off. */
  lemma MgetConverges(cfg: Config, refs: map<Bytes, Bytes>, dev: Device, req: GetRequest, dv: Versions,
                      reply: UpstreamReply, now: nat, states: seq<Device>, visits: seq<Visit>, k: nat)
    requires cfg.Valid() && !req.FactoryReset() && req.mget && req.WellFormed() && k < |visits| < |states|
    ensures
      var (dev', r) := Got(cfg, refs, dev, req, dv, reply, now);
      r.status == 200 && r.etag != "" && Returns(cfg, dev', r, req, dv, now, states, visits) ==>
        && AnswerTo(cfg, states[k], visits[k]).1.status
           == (if ReadDocument(states[k].rows, false, visits[k].now) == map[] && !cfg.stateCorrection then 404 else 304)
        && states[k + 1].rows == BuiltRows(cfg, states[k].rows, visits[k].dv, visits[k].now)
  {
    var (dev', r) := Got(cfg, refs, dev, req, dv, reply, now);
    if r.status == 200 && r.etag != "" && Returns(cfg, dev', r, req, dv, now, states, visits) {
      FirstMgetTags(cfg, refs, dev, req, dv, reply, now);
      StaysTagged(cfg, dev', r, req, dv, now, states, visits, k);
      VisitOf(cfg, dev', r, req, dv, now, states, visits, k);
      MgetVisit(cfg, states[k], visits[k], r.etag, now);
    }
  }

  // ---------- an answer that is not written back ----------

  /** The row has the content it had; its state, time and errors may differ. */
  predicate SameContent(row: SubDocument, row': SubDocument) {
    row'.payload == row.payload && row'.GetVersion() == row.GetVersion() && row'.expiry == row.expiry
  }

  lemma BuiltRowsSameContent(cfg: Config, rows: Rows, dv: Versions, now: nat)
    ensures BuiltRows(cfg, rows, dv, now).Keys == rows.Keys
    ensures forall id :: id in rows ==> SameContent(rows[id], BuiltRows(cfg, rows, dv, now)[id])
  {
    BuiltRowsKeepVersions(cfg, rows, dv, now);
    var writes := Corrections(ReadDocument(rows, false, now), dv, now);
    forall id | id in rows && id in writes ensures SameContent(rows[id], Upsert(rows[id], writes[id])) {
      assert writes[id] == Corrected(View(rows[id]), now);
    }
  }

  /** The parts that upstream sends back for one subdocument. */
  function OnePart(id: string, version: string, bytes: Bytes): seq<Multipart> {
    [Multipart(id, version, bytes)]
  }

  /** Upstream changes one row under a new tag and asks that the store be left alone: the device adopts the tag
      and the version, and the next request is answered 200 again, with the stored row. */
  lemma SkippedUpdateIsSentAgain(cfg: Config, refs: map<Bytes, Bytes>, dev: Device, req: GetRequest, dv: Versions,
                                 now: nat, id: string, version: string, bytes: Bytes, etag: string, v: Visit)
    requires cfg.Valid() && cfg.upstream && !cfg.filterByBitmap && id !in cfg.blockedIds && id != "root"
    requires req.WellFormed() && !req.FactoryReset() && !req.mget && !req.Mismatched()
    requires HeaderCovers(dev.root.GetOr(req.meta), req.meta) && Comparison(dev, req, dv).MetaChanged?
    requires !LockedOut(cfg, dev, req, now)
    requires id in dev.rows && Visible(dev.rows[id], false, v.now) && RefId(dev.rows[id].payload).None?
    requires version != dev.rows[id].GetVersion() && version != Lookup(dv, id, "") && RefId(bytes).None?
    requires etag != "" && etag != dev.root.GetOr(NO_ROOT).version && etag != Lookup(dv, "root", "")
    ensures
      var (dev', r) := Got(cfg, refs, dev, req, dv, Replied(etag, OnePart(id, version, bytes), true), now);
      && r == Response(200, etag, map[id := Multipart(id, version, bytes)])
      && (Again(r, req, dv, now, v) ==> AnswerTo(cfg, dev', v).1.status == 200)
  {
    var reply := Replied(etag, OnePart(id, version, bytes), true);
    var (dev', r) := Got(cfg, refs, dev, req, dv, reply, now);
    SkippedAnswer(cfg, refs, dev, req, dv, now, id, version, bytes, etag);
    if Again(r, req, dv, now, v) {
      NextComparison(cfg, refs, dev, req, dv, reply, now, v);
      GotLeavesRoot(cfg, refs, dev, req, dv, reply, now);
      StoredRowIsWanted(cfg, v.refs, dev', v.req, v.dv, v.now, id);
      ConvergesExactly(cfg, refs, dev, req, dv, reply, now, v);
    }
  }

  lemma StoredRowIsWanted(cfg: Config, refs: map<Bytes, Bytes>, dev: Device, req: GetRequest, dv: Versions, now: nat,
                          id: string)
    requires cfg.Valid() && !cfg.filterByBitmap && id !in cfg.blockedIds
    requires id in dev.rows && Visible(dev.rows[id], false, now) && RefId(dev.rows[id].payload).None?
    requires dev.rows[id].GetVersion() != Lookup(dv, id, "")
    requires dev.root.GetOr(req.meta).version != Lookup(dv, "root", "")
    ensures Wanted(cfg, refs, dev, req, dv, now, id)
    ensures ReadDocument(dev.rows, false, now) != map[]
  {
    assert id in ReadDocument(dev.rows, false, now);
  }

  lemma SkippedAnswer(cfg: Config, refs: map<Bytes, Bytes>, dev: Device, req: GetRequest, dv: Versions, now: nat,
                      id: string, version: string, bytes: Bytes, etag: string)
    requires cfg.Valid() && cfg.upstream && !cfg.filterByBitmap && id !in cfg.blockedIds
    requires req.WellFormed() && !req.FactoryReset() && !req.mget && !req.Mismatched()
    requires Comparison(dev, req, dv).MetaChanged? && !LockedOut(cfg, dev, req, now)
    requires version != Lookup(dv, id, "") && RefId(bytes).None? && etag != "" && Lookup(dv, "root", "") != etag
    ensures
      var (dev', r) := Got(cfg, refs, dev, req, dv, Replied(etag, OnePart(id, version, bytes), true), now);
      && r == Response(200, etag, map[id := Multipart(id, version, bytes)])
      && dev'.rows == BuiltRows(cfg, dev.rows, dv, now)
      && forall k :: k in dev.rows ==> k in dev'.rows && SameContent(dev.rows[k], dev'.rows[k])
  {
    SkippedReply(cfg, refs, dev, req, dv, OnePart(id, version, bytes), etag, now);
    OnePartIsSent(cfg, refs, dv, id, version, bytes, etag);
    BuiltRowsSameContent(cfg, dev.rows, dv, now);
  }

  lemma SkippedReply(cfg: Config, refs: map<Bytes, Bytes>, dev: Device, req: GetRequest, dv: Versions,
                     parts: seq<Multipart>, etag: string, now: nat)
    requires cfg.Valid() && cfg.upstream && !cfg.filterByBitmap
    requires !req.FactoryReset() && !Unread(dev, req, now) && AsksUpstream(cfg, dev, req, dv, now)
    ensures
      var (dev', r) := Got(cfg, refs, dev, req, dv, Replied(etag, parts, true), now);
      && r == SentFromUpstream(cfg, refs, FromParts(parts), etag, 0, dv)
      && dev'.rows == BuiltRows(cfg, dev.rows, dv, now)
  {
    BuiltAsks(cfg, dev, req, dv, now);
    BuiltRoots(cfg, dev, req, dv, now);
    BuiltDeviceRows(cfg, dev, req, dv, now);
  }

  lemma OnePartIsSent(cfg: Config, refs: map<Bytes, Bytes>, dv: Versions, id: string, version: string, bytes: Bytes,
                      etag: string)
    requires cfg.Valid() && !cfg.filterByBitmap && id !in cfg.blockedIds
    requires version != Lookup(dv, id, "") && RefId(bytes).None? && etag != Lookup(dv, "root", "")
    ensures SentFromUpstream(cfg, refs, FromParts(OnePart(id, version, bytes)), etag, 0, dv)
         == Response(200, etag, map[id := Multipart(id, version, bytes)])
  {
    var parts := OnePart(id, version, bytes);
    assert parts[..0] == [];
    var doc := map[id := PartRecord(parts[0])];
    assert FromParts(parts) == doc;
    assert ForGet(doc, etag, dv) - Keyed(cfg.blockedIds) == doc;
    assert WithReferences(refs, doc) == doc;
    assert Parts(doc) == map[id := Multipart(id, version, bytes)];
  }

  /** Such a next request exists: the header of the first one, listing what was sent. */
  lemma AdoptingVisitExists(req: GetRequest, r: Response, id: string, version: string, refs: map<Bytes, Bytes>,
                            reply: UpstreamReply, now: nat)
    requires req.WellFormed() && id != "root"
    requires r.etag != "" && r.parts.Keys == {id} && r.parts[id].version == version
    ensures
      var next := GetRequest(req.meta, ["root", id], [r.etag, version], req.mget);
      Again(r, req, map[], now, Visit(next, map["root" := r.etag, id := version], refs, reply, now))
  {
    var ids, versions := ["root", id], [r.etag, version];
    assert ids[..1] == ["root"] && versions[..1] == [r.etag];
    assert Zip(ids[..1][..0], versions[..1][..0]) == map[];
    assert Zip(ids[..1], versions[..1]) == map["root" := r.etag];
    assert Zip(ids, versions) == map["root" := r.etag, id := version];
  }

  // ---------- every later request, without a root version ----------

  /** What requests of one header leave of a device: the stored metadata, and the content of the rows. */
  ghost predicate Settled(dev: Device, req: GetRequest, dev': Device) {
    && dev'.root == BuiltRoot(dev, req)
    && dev'.rows.Keys == dev.rows.Keys
    && forall id :: id in dev.rows ==> SameContent(dev.rows[id], dev'.rows[id])
  }

  lemma GetRoot(cfg: Config, refs: map<Bytes, Bytes>, dev: Device, req: GetRequest, dv: Versions,
                reply: UpstreamReply, now: nat)
    requires cfg.Valid() && FromStore(cfg, dev, req, dv, now) && req.WellFormed() && !Unread(dev, req, now)
    ensures Got(cfg, refs, dev, req, dv, reply, now).0.root == BuiltRoot(dev, req)
  {
    GotLeavesRoot(cfg, refs, dev, req, dv, reply, now);
  }

  /** One request keeps the content of the rows. */
  lemma GetKeepsContent(cfg: Config, refs: map<Bytes, Bytes>, dev: Device, req: GetRequest, dv: Versions,
                        reply: UpstreamReply, now: nat)
    requires cfg.Valid() && FromStore(cfg, dev, req, dv, now)
    ensures
      var dev' := Got(cfg, refs, dev, req, dv, reply, now).0;
      dev'.rows.Keys == dev.rows.Keys && forall id :: id in dev.rows ==> SameContent(dev.rows[id], dev'.rows[id])
  {
    GetTouchesExactlyTheDelivered(cfg, refs, dev, req, dv, reply, now);
    BuiltRowsSameContent(cfg, dev.rows, dv, now);
  }

  /** Storing the same metadata again changes nothing. */
  lemma RootSettles(dev: Device, dev': Device, req: GetRequest, req': GetRequest)
    requires req.WellFormed() && req'.meta == req.meta && dev'.root == BuiltRoot(dev, req)
    ensures BuiltRoot(dev', req') == BuiltRoot(dev, req)
  {
  }

  lemma VisitKeepsSettled(cfg: Config, dev: Device, req: GetRequest, dev': Device, v: Visit)
    requires cfg.Valid() && req.WellFormed() && Settled(dev, req, dev')
    requires v.req.WellFormed() && v.req.meta == req.meta && !v.req.Mismatched()
    requires FromStore(cfg, dev', v.req, v.dv, v.now)
    ensures Settled(dev, req, AnswerTo(cfg, dev', v).0)
  {
    GetRoot(cfg, v.refs, dev', v.req, v.dv, v.reply, v.now);
    RootSettles(dev, dev', req, v.req);
    GetKeepsContent(cfg, v.refs, dev', v.req, v.dv, v.reply, v.now);
  }

  /** The first n visits are answered from the store. */
  predicate AllFromStore(cfg: Config, states: seq<Device>, visits: seq<Visit>, n: nat)
    requires n <= |visits| <= |states|
  {
    forall k: nat :: k < n ==> FromStore(cfg, states[k], visits[k].req, visits[k].dv, visits[k].now)
  }

  lemma {:induction false} StaysSettled(cfg: Config, dev: Device, req: GetRequest, dv: Versions, dev': Device,
                                        r: Response, now: nat, states: seq<Device>, visits: seq<Visit>, k: nat)
    requires cfg.Valid() && req.WellFormed() && k <= |visits| < |states|
    requires Settled(dev, req, dev') && Returns(cfg, dev', r, req, dv, now, states, visits)
    requires AllFromStore(cfg, states, visits, k)
    ensures Settled(dev, req, states[k])
  {
    if k > 0 {
      StaysSettled(cfg, dev, req, dv, dev', r, now, states, visits, k - 1);
      VisitOf(cfg, dev', r, req, dv, now, states, visits, k - 1);
      VisitKeepsSettled(cfg, dev, req, states[k - 1], visits[k - 1]);
    }
  }

  /** A 200 from the store settles the device. */
  lemma FirstGetSettles(cfg: Config, refs: map<Bytes, Bytes>, dev: Device, req: GetRequest, dv: Versions,
                        reply: UpstreamReply, now: nat)
    requires cfg.Valid() && FromStore(cfg, dev, req, dv, now) && req.WellFormed()
    ensures
      var (dev', r) := Got(cfg, refs, dev, req, dv, reply, now);
      r.status == 200 ==>
        && Settled(dev, req, dev')
        && r.etag == dev.root.GetOr(req.meta).version
        && !LockedOut(cfg, dev, req, now)
  {
    var r := Got(cfg, refs, dev, req, dv, reply, now).1;
    if r.status == 200 {
      StoreAnswer(cfg, refs, dev, req, dv, reply, now);
      BuiltOutcome(cfg, dev, req, dv, now);
      BuiltRoots(cfg, dev, req, dv, now);
      GetRoot(cfg, refs, dev, req, dv, reply, now);
      GetKeepsContent(cfg, refs, dev, req, dv, reply, now);
    }
  }

  /** The second table resolves nothing that the first does not. */
  ghost predicate NoNewReference(refs: map<Bytes, Bytes>, refs': map<Bytes, Bytes>) {
    forall payload :: Resolvable(refs', payload) ==> Resolvable(refs, payload)
  }

  /** A row wanted by a later request was wanted, and so delivered, by the first. */
  lemma WantedAgain(cfg: Config, refs: map<Bytes, Bytes>, dev: Device, dev': Device, req: GetRequest, dv: Versions,
                    v: Visit, now: nat, id: string)
    requires cfg.Valid() && now <= v.now && !req.mget && NoNewReference(refs, v.refs)
    requires req.WellFormed() && v.req.WellFormed() && HeaderCovers(dev.root.GetOr(req.meta), req.meta)
    requires v.req.meta == req.meta && v.req.mget == req.mget && Settled(dev, req, dev')
    requires dev.root.GetOr(req.meta).version == "" && Lookup(v.dv, "root", "") == ""
    requires !Wanted(cfg, refs, dev, req, dv, now, id) ==> Lookup(v.dv, id, "") == Lookup(dv, id, "")
    requires Wanted(cfg, v.refs, dev', v.req, v.dv, v.now, id)
    ensures Wanted(cfg, refs, dev, req, dv, now, id)
  {
    RootDocumentSettles(dev, req, "");
    FilterBitmapSettles(dev, req, Lookup(dv, "root", ""));
    assert SameContent(dev.rows[id], dev'.rows[id]);
  }

  lemma NothingWantedAgain(cfg: Config, refs: map<Bytes, Bytes>, dev: Device, dev': Device, r: Response,
                           req: GetRequest, dv: Versions, v: Visit, now: nat, id: string)
    requires cfg.Valid() && now <= v.now && !req.mget && "root" !in dev.rows && NoNewReference(refs, v.refs)
    requires req.WellFormed() && v.req.WellFormed() && HeaderCovers(dev.root.GetOr(req.meta), req.meta)
    requires Settled(dev, req, dev') && dev.root.GetOr(req.meta).version == r.etag == ""
    requires forall i :: i in r.parts <==> Wanted(cfg, refs, dev, req, dv, now, i)
    requires forall i :: i in r.parts ==> i in dev.rows && r.parts[i].version == dev.rows[i].GetVersion()
    requires Adopts(req, dv, r, v.req, v.dv)
    ensures !Wanted(cfg, v.refs, dev', v.req, v.dv, v.now, id)
  {
    if Wanted(cfg, v.refs, dev', v.req, v.dv, v.now, id) {
      WantedAgain(cfg, refs, dev, dev', req, dv, v, now, id);
      RootDocumentSettles(dev, req, "");
      StillStale(cfg, v.refs, dev', v.req, v.dv, v.now, id);
      assert false;
    }
  }

  /** After a 200 from the store without a root version the device, having adopted what it was sent, is never sent
      a 200 again while it is answered from the store and no further reference gets stored, and no row changes but
      by a correction. */
  lemma GetWithoutRootVersionConverges(cfg: Config, refs: map<Bytes, Bytes>, dev: Device, req: GetRequest, dv: Versions,
                                       reply: UpstreamReply, now: nat, states: seq<Device>, visits: seq<Visit>, k: nat)
    requires cfg.Valid() && FromStore(cfg, dev, req, dv, now) && !req.mget && req.WellFormed()
    requires HeaderCovers(dev.root.GetOr(req.meta), req.meta) && "root" !in dev.rows && k < |visits| < |states|
    requires AllFromStore(cfg, states, visits, k + 1) && NoNewReference(refs, visits[k].refs)
    ensures
      var (dev', r) := Got(cfg, refs, dev, req, dv, reply, now);
      r.status == 200 && r.etag == "" && Returns(cfg, dev', r, req, dv, now, states, visits) ==>
        && AnswerTo(cfg, states[k], visits[k]).1.status != 200
        && states[k + 1].rows == BuiltRows(cfg, states[k].rows, visits[k].dv, visits[k].now)
  {
    var (dev', r) := Got(cfg, refs, dev, req, dv, reply, now);
    if r.status == 200 && r.etag == "" && Returns(cfg, dev', r, req, dv, now, states, visits) {
      FirstGetSettles(cfg, refs, dev, req, dv, reply, now);
      GetDeliversExactlyTheWanted(cfg, refs, dev, req, dv, reply, now);
      StaysSettled(cfg, dev, req, dv, dev', r, now, states, visits, k);
      VisitOf(cfg, dev', r, req, dv, now, states, visits, k);
      var v := visits[k];
      forall id ensures !Wanted(cfg, v.refs, states[k], v.req, v.dv, v.now, id) {
        NothingWantedAgain(cfg, refs, dev, states[k], r, req, dv, v, now, id);
      }
      NothingWantedNo200(cfg, v, states[k]);
    }
  }

  lemma NothingWantedNo200(cfg: Config, v: Visit, dev: Device)
    requires cfg.Valid() && FromStore(cfg, dev, v.req, v.dv, v.now) && !v.req.mget
    requires forall id :: !Wanted(cfg, v.refs, dev, v.req, v.dv, v.now, id)
    ensures AnswerTo(cfg, dev, v).1.status != 200
    ensures AnswerTo(cfg, dev, v).0.rows == BuiltRows(cfg, dev.rows, v.dv, v.now)
  {
    StoreAnswer(cfg, v.refs, dev, v.req, v.dv, v.reply, v.now);
    NoPartNo200(cfg, v.refs, dev, v.req, v.dv, v.now);
    GetAnswers200Exactly(cfg, v.refs, dev, v.req, v.dv, v.reply, v.now);
  }

  lemma StillStale(cfg: Config, refs: map<Bytes, Bytes>, dev: Device, req: GetRequest, dv: Versions, now: nat,
                   id: string)
    requires cfg.Valid() && Wanted(cfg, refs, dev, req, dv, now, id)
    requires !req.mget && !Comparison(dev, req, dv).MetaChanged?
    ensures dev.rows[id].GetVersion() != Lookup(dv, id, "")
  {
  }
}
