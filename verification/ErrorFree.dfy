/** Deployed rows carry no error, in every run, and a root 304 report is idempotent. */
module ErrorFree {
  import opened Common
  import opened RootDocuments
  import opened Documents
  import opened Store
  import opened Steps
  import opened Machine

  predicate Clean(row: SubDocument) {
    && row.errorCode.GetOr(0) >= 0
    && (row.GetState() == DEPLOYED ==> row.errorCode.GetOr(0) == 0 && row.errorDetails.GetOr("") == "")
  }

  ghost predicate AllClean(rows: Rows) {
    forall id :: id in rows ==> Clean(rows[id])
  }

  /** Device reports carry no negative error code. */
  predicate ErrorCodesNatural(step: Step) {
    step.Report? ==> step.m.errorCode.GetOr(0) >= 0
  }

  lemma WriteAllClean(rows: Rows, writes: Rows)
    requires AllClean(rows)
    requires forall id :: id in writes ==> Clean(Upsert(RowOf(rows, id), writes[id]))
    ensures AllClean(WriteAll(rows, writes))
  {
  }

  /** Correction clears an error code only when it is positive: a negative one would stay. */
  lemma BuiltRowsClean(cfg: Config, rows: Rows, dv: Versions, now: nat)
    requires AllClean(rows)
    ensures AllClean(BuiltRows(cfg, rows, dv, now))
  {
    var doc := ReadDocument(rows, false, now);
    forall id | id in Corrections(doc, dv, now) ensures Clean(Upsert(rows[id], Corrections(doc, dv, now)[id])) {
    }
    WriteAllClean(rows, Corrections(doc, dv, now));
  }

  lemma InDeploymentClean(rows: Rows, doc: Rows, now: nat)
    requires AllClean(rows)
    ensures AllClean(WriteAll(rows, InDeploymentWrites(doc, now)))
  {
  }

  lemma UpstreamClean(dev: Device, etag: string, newDoc: Rows, doc: Rows, docVersion: string, toDelete: bool,
                      dv: Versions, now: nat)
    requires AllClean(dev.rows)
    ensures AllClean(WrittenFromUpstream(dev, etag, newDoc, doc, docVersion, toDelete, dv, now).rows)
  {
    WriteAllClean(dev.rows, UpstreamWrites(newDoc, doc, dv, now));
  }

  lemma AnswerWithoutUpstreamClean(cfg: Config, refs: map<Bytes, Bytes>, built: Built, mget: bool, now: nat)
    requires cfg.Valid() && AllClean(built.dev.rows)
    ensures AllClean(AnswerWithoutUpstream(cfg, refs, built, mget, now).0.rows)
  {
    InDeploymentClean(built.dev.rows, Delivered(cfg, refs, built), now);
  }

  lemma AnswerWithUpstreamClean(cfg: Config, refs: map<Bytes, Bytes>, built: Built, mget: bool, dv: Versions,
                                reply: UpstreamReply, now: nat)
    requires cfg.Valid() && AllClean(built.dev.rows)
    ensures AllClean(AnswerWithUpstream(cfg, refs, built, mget, dv, reply, now).0.rows)
  {
    forall doc: Rows ensures AllClean(WriteAll(built.dev.rows, InDeploymentWrites(doc, now))) {
      InDeploymentClean(built.dev.rows, doc, now);
    }
    if reply.Replied? {
      forall doc: Rows
        ensures AllClean(WrittenFromUpstream(built.dev, reply.etag, FromParts(reply.parts), doc, built.docRoot.version,
                                             false, dv, now).rows)
      {
        UpstreamClean(built.dev, reply.etag, FromParts(reply.parts), doc, built.docRoot.version, false, dv, now);
      }
    }
  }

  lemma GetClean(cfg: Config, refs: map<Bytes, Bytes>, dev: Device, req: GetRequest, dv: Versions, reply: UpstreamReply,
                 now: nat)
    requires cfg.Valid() && AllClean(dev.rows) && !req.FactoryReset()
    ensures AllClean(Got(cfg, refs, dev, req, dv, reply, now).0.rows)
  {
    var built := BuiltDocument(cfg, dev, req, dv, now);
    BuiltDocumentDevice(cfg, dev, req, dv, now);
    BuiltRowsClean(cfg, dev.rows, dv, now);
    AnswerWithoutUpstreamClean(cfg, refs, built, req.mget, now);
    AnswerWithUpstreamClean(cfg, refs, built, req.mget, dv, reply, now);
  }

  lemma ResetClean(cfg: Config, refs: map<Bytes, Bytes>, dev: Device, meta: RootDoc, reply: UpstreamReply, now: nat)
    requires cfg.Valid() && AllClean(dev.rows)
    ensures AllClean(FactoryReset(cfg, refs, dev, meta, reply, now).0.rows)
  {
    var root := if dev.root.None? then meta else Updated(dev.root.value, meta);
    var dev1 := dev.(root := Some(StoredRoot(dev.root, root)));
    if reply.Replied? {
      UpstreamClean(dev1, reply.etag, FromParts(reply.parts) - Keyed(cfg.blockedIds),
                    ReadDocument(dev.rows, false, now),
                    root.version, true, map[], now);
    }
  }

  lemma ReportClean(cfg: Config, dev: Device, m: EventMessage, now: nat)
    requires AllClean(dev.rows) && m.errorCode.GetOr(0) >= 0
    ensures AllClean(Reported(cfg, dev, m, now).0.rows)
  {
    if m.IsHttp304() {
      WriteAllClean(dev.rows, Http304Writes(ReadDocument(dev.rows, false, now), now));
    }
  }

  lemma PokeClean(cfg: Config, dev: Device, broker: BrokerReply, now: nat)
    requires AllClean(dev.rows)
    ensures AllClean(Poked(cfg, dev, broker, now).0.rows)
  {
    var doc := PokeDocument(cfg, dev, now);
    if doc.Some? {
      WriteAllClean(dev.rows, PokeWrites(StateMap(doc.value), now));
    }
  }

  lemma NextClean(cfg: Config, dev: Device, step: Step)
    requires cfg.Valid() && AllClean(dev.rows) && ErrorCodesNatural(step)
    ensures AllClean(Next(cfg, dev, step).rows)
  {
    match step
    case Post(id, payload, version, header, expiry, now) =>
    case DeleteSub(id, now) =>
    case DeleteDoc(now) =>
    case Get(req, dv, refs, reply, now) =>
      if req.FactoryReset() {
        ResetClean(cfg, refs, dev, req.meta, reply, now);
      } else {
        GetClean(cfg, refs, dev, req, dv, reply, now);
      }
    case Report(m, now) => ReportClean(cfg, dev, m, now);
    case Poke(broker, now) => PokeClean(cfg, dev, broker, now);
    case Precook(refs, tag, now) =>
  }

  /** In every state of every run in which reported error codes are not negative, deployed rows have
      error code 0 and no error details, upstream on or off. */
  lemma {:induction false} DeployedRowsCarryNoError(cfg: Config, states: seq<Device>, steps: seq<Step>, i: nat)
    requires cfg.Valid() && Run(cfg, states, steps)
    requires forall k :: 0 <= k < |steps| ==> ErrorCodesNatural(steps[k])
    requires i < |states|
    ensures AllClean(states[i].rows)
  {
    if i > 0 {
      DeployedRowsCarryNoError(cfg, states, steps, i - 1);
      NextClean(cfg, states[i - 1], steps[i - 1]);
    }
  }

  /** Correcting one row leaves an error on a deployed row exactly when its stored code is negative. */
  lemma CorrectionLeavesError(row: SubDocument, now: nat)
    ensures var after := Upsert(row, Corrected(View(row), now));
            after.GetState() == DEPLOYED
            && (after.errorCode.GetOr(0) != 0 || after.errorDetails.GetOr("") != "" <==> row.errorCode.GetOr(0) < 0)
  {
  }

  // ---------- root 304 reports ----------

  lemma WrittenRowsAreSettled(rows: Rows, now: nat, later: nat, id: string)
    requires now <= later
    requires id in ReadDocument(WriteAll(rows, Http304Writes(ReadDocument(rows, false, now), now)), false, later)
    ensures !ReadDocument(WriteAll(rows, Http304Writes(ReadDocument(rows, false, now), now)), false,
                          later)[id].NeedsUpdateForHttp304()
  {
    var doc := ReadDocument(rows, false, now);
    var after := WriteAll(rows, Http304Writes(doc, now));
    assert id in rows && id in doc;
    if id in Http304Writes(doc, now) {
      assert after[id] == Upsert(rows[id], StateRecord(DEPLOYED, now, Some(0), Some("")));
    } else {
      assert after[id] == rows[id];
    }
  }

  lemma SettledAfterwards(rows: Rows, now: nat, later: nat)
    requires now <= later
    ensures
      var after := WriteAll(rows, Http304Writes(ReadDocument(rows, false, now), now));
      Http304Writes(ReadDocument(after, false, later), later) == map[]
  {
    var doc := ReadDocument(WriteAll(rows, Http304Writes(ReadDocument(rows, false, now), now)), false, later);
    forall id | id in doc ensures !doc[id].NeedsUpdateForHttp304() {
      WrittenRowsAreSettled(rows, now, later, id);
    }
  }

  /** After a root 304 report no visible row needs the update, so a second report at the same or a
      later time changes nothing and lists nothing. */
  lemma Http304Settles(cfg: Config, dev: Device, m: EventMessage, now: nat, later: nat)
    requires m.IsHttp304() && now <= later
    requires ReadDocument(dev.rows, false, now) != map[]
    ensures
      var dev' := Reported(cfg, dev, m, now).0;
      && Http304Writes(ReadDocument(dev'.rows, false, later), later) == map[]
      && Reported(cfg, dev', m, later).0 == dev'
      && (Reported(cfg, dev', m, later).1 == Done({}) || Reported(cfg, dev', m, later).1 == NotFound)
  {
    var dev' := Reported(cfg, dev, m, now).0;
    SettledAfterwards(dev.rows, now, later);
    assert WriteAll(dev'.rows, map[]) == dev'.rows;
  }
}
